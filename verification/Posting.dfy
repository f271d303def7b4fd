// One post per slot (mastomini_bots/src/bot.rs): every try of a run uses the same idempotency key, and the
// Mastodon server returns the first post for a key it has seen.
module Posting {
  import opened Options
  import opened Text
  import opened BotRuns
  import opened BotHistory

  // ---------------------------------------------------------------------------
  // The key names the bot, the kind of run and the slot, and nothing else has it
  // ---------------------------------------------------------------------------

  predicate IdChar(c: char) {
    ('a' <= c <= 'z') || ('0' <= c <= '9') || c == '_'
  }

  /** The ids bots may have. */
  predicate ValidId(id: string) {
    id != "" && |id| <= 13 && forall c :: c in id ==> IdChar(c)
  }

  /** All that the key needs of an id. */
  predicate NoColon(id: string) {
    ':' !in id
  }

  lemma ValidIdHasNoColon(id: string)
    requires ValidId(id)
    ensures NoColon(id)
  {
    assert !IdChar(':');
  }

  function RunKind(manual: bool): string {
    if manual then "manual" else "slot"
  }

  function IdempotencyKey(id: string, manual: bool, slot: nat): string {
    "mastomini-bots:" + id + ":" + RunKind(manual) + ":" + Digits(slot)
  }

  /** Texts joined by a colon come apart again when the first has none. */
  lemma ColonSplits(a: string, restA: string, b: string, restB: string)
    requires ':' !in a && ':' !in b && a + ":" + restA == b + ":" + restB
    ensures a == b && restA == restB
  {
    var text := a + ":" + restA;
    assert text[|a|] == ':' && text[|b|] == ':';
    assert forall i :: 0 <= i < |a| ==> a[i] == text[i];
    assert forall i :: 0 <= i < |b| ==> b[i] == text[i];
    assert |a| == |b|;
    assert a == text[..|a|] && b == text[..|b|];
    assert restA == text[|a| + 1..] && restB == text[|b| + 1..];
  }

  lemma SamePrefix(prefix: string, a: string, b: string)
    requires prefix + a == prefix + b
    ensures a == b
  {
    assert (prefix + a)[|prefix|..] == a && (prefix + b)[|prefix|..] == b;
  }

  lemma DigitsInjective(m: nat, n: nat)
    requires Digits(m) == Digits(n)
    ensures m == n
  {
    DigitsRead(m);
    DigitsRead(n);
  }

  /** Different bots, kinds of run or slots never share a key. */
  lemma KeyInjective(id: string, manual: bool, slot: nat, id': string, manual': bool, slot': nat)
    requires NoColon(id) && NoColon(id') && IdempotencyKey(id, manual, slot) == IdempotencyKey(id', manual', slot')
    ensures id == id' && manual == manual' && slot == slot'
  {
    var rest, rest' := RunKind(manual) + ":" + Digits(slot), RunKind(manual') + ":" + Digits(slot');
    KeyParts(id, manual, slot);
    KeyParts(id', manual', slot');
    SamePrefix("mastomini-bots:", id + ":" + rest, id' + ":" + rest');
    ColonSplits(id, rest, id', rest');
    ColonSplits(RunKind(manual), Digits(slot), RunKind(manual'), Digits(slot'));
    assert RunKind(manual)[0] == RunKind(manual')[0];
    DigitsInjective(slot, slot');
  }

  lemma KeyParts(id: string, manual: bool, slot: nat)
    ensures IdempotencyKey(id, manual, slot)
         == "mastomini-bots:" + (id + ":" + (RunKind(manual) + ":" + Digits(slot)))
  {
    var prefix, kind, digits := "mastomini-bots:", RunKind(manual), Digits(slot);
    assert prefix + id + ":" + kind + ":" + digits == prefix + (id + ":" + (kind + ":" + digits));
  }

  // ---------------------------------------------------------------------------
  // A server that returns the first post for a repeated key
  // ---------------------------------------------------------------------------

  datatype Origin = Origin(id: string, manual: bool, slot: nat)

  datatype Post = Post(key: string, origin: Origin)

  function KeyOf(o: Origin): string {
    IdempotencyKey(o.id, o.manual, o.slot)
  }

  /** The first post with the key, or how many there are. */
  function FindKey(posts: seq<Post>, key: string): nat {
    if posts == [] then 0 else if posts[0].key == key then 0 else 1 + FindKey(posts[1..], key)
  }

  /** The server's posts after a request, and the index of the post it answers with. */
  function Publish(posts: seq<Post>, o: Origin): (seq<Post>, nat) {
    var at := FindKey(posts, KeyOf(o));
    (if at < |posts| then posts else posts + [Post(KeyOf(o), o)], at)
  }

  lemma {:induction false} FindKeyFinds(posts: seq<Post>, key: string)
    ensures var at := FindKey(posts, key);
            at <= |posts| && (at < |posts| ==> posts[at].key == key) && forall i :: 0 <= i < at ==> posts[i].key != key
  {
    if posts != [] && posts[0].key != key {
      FindKeyFinds(posts[1..], key);
      assert forall i :: 0 < i < |posts| ==> posts[i] == posts[1..][i - 1];
    }
  }

  /** Every post has the key of its origin, and no two have the same. */
  ghost predicate Distinct(posts: seq<Post>) {
    && (forall i :: 0 <= i < |posts| ==> NoColon(posts[i].origin.id) && posts[i].key == KeyOf(posts[i].origin))
    && (forall i, j :: 0 <= i < j < |posts| ==> posts[i].key != posts[j].key)
  }

  /** The answer is always the one post of the run's own origin; nothing else is added or lost. */
  lemma PublishAnswersOwnPost(posts: seq<Post>, o: Origin)
    requires Distinct(posts) && NoColon(o.id)
    ensures var (after, at) := Publish(posts, o);
            && Distinct(after) && at < |after| && after[at].origin == o && posts <= after
            && (forall i :: 0 <= i < |after| && after[i].origin == o ==> i == at)
            && (|after| == |posts| <==> exists i :: 0 <= i < |posts| && posts[i].origin == o)
  {
    FindKeyFinds(posts, KeyOf(o));
    var (after, at) := Publish(posts, o);
    forall i | 0 <= i < |after| && after[i].key == KeyOf(o) ensures after[i].origin == o {
      var p := after[i].origin;
      KeyInjective(p.id, p.manual, p.slot, o.id, o.manual, o.slot);
    }
    if at < |posts| { assert posts[at].origin == o; }
  }

  // ---------------------------------------------------------------------------
  // Any number of requests, in any order, from any bots
  // ---------------------------------------------------------------------------

  function PublishAll(posts: seq<Post>, os: seq<Origin>): seq<Post>
    decreases |os|
  {
    if os == [] then posts else PublishAll(Publish(posts, os[0]).0, os[1..])
  }

  /** The post each request is answered with. */
  function Answers(posts: seq<Post>, os: seq<Origin>): seq<nat>
    decreases |os|
  {
    if os == [] then [] else [Publish(posts, os[0]).1] + Answers(Publish(posts, os[0]).0, os[1..])
  }

  function CountOrigin(posts: seq<Post>, o: Origin): nat {
    if posts == [] then 0 else (if posts[0].origin == o then 1 else 0) + CountOrigin(posts[1..], o)
  }

  predicate Posted(posts: seq<Post>, o: Origin) {
    exists i :: 0 <= i < |posts| && posts[i].origin == o
  }

  predicate AllValid(os: seq<Origin>) {
    forall o :: o in os ==> NoColon(o.id)
  }

  lemma {:induction false} DistinctMeansOne(posts: seq<Post>, o: Origin)
    requires Distinct(posts)
    ensures CountOrigin(posts, o) == if Posted(posts, o) then 1 else 0
  {
    if posts != [] {
      var rest := posts[1..];
      assert forall i :: 0 <= i < |rest| ==> rest[i] == posts[i + 1];
      DistinctMeansOne(rest, o);
      assert Posted(rest, o) ==> Posted(posts, o);
      assert posts[0].origin == o ==> Posted(posts, o);
      assert Posted(posts, o) && posts[0].origin != o ==> Posted(rest, o);
      assert Posted(rest, o) ==> posts[0].key != KeyOf(o);
    }
  }

  lemma {:induction false} PublishAllGrows(posts: seq<Post>, os: seq<Origin>)
    requires Distinct(posts) && AllValid(os)
    ensures Distinct(PublishAll(posts, os)) && posts <= PublishAll(posts, os)
    decreases |os|
  {
    if os != [] {
      PublishAnswersOwnPost(posts, os[0]);
      PublishAllGrows(Publish(posts, os[0]).0, os[1..]);
    }
  }

  lemma {:induction false} PublishAllHas(posts: seq<Post>, os: seq<Origin>, o: Origin)
    requires Distinct(posts) && AllValid(os)
    ensures Posted(PublishAll(posts, os), o) <==> Posted(posts, o) || o in os
    decreases |os|
  {
    if os != [] {
      var next := NextPosts(posts, os[0], o);
      PublishAllHas(next, os[1..], o);
      assert os == [os[0]] + os[1..];
    }
  }

  /** Each request's own post is there, and nothing else: no post is swallowed by the key of another slot or bot. */
  lemma PublishAllPosts(posts: seq<Post>, os: seq<Origin>, o: Origin)
    requires Distinct(posts) && AllValid(os)
    ensures var after := PublishAll(posts, os);
            Distinct(after) && posts <= after && (Posted(after, o) <==> Posted(posts, o) || o in os)
  {
    PublishAllGrows(posts, os);
    PublishAllHas(posts, os, o);
  }

  lemma NextPosts(posts: seq<Post>, sent: Origin, o: Origin) returns (next: seq<Post>)
    requires Distinct(posts) && NoColon(sent.id)
    ensures next == Publish(posts, sent).0 && Distinct(next)
    ensures Posted(next, o) <==> Posted(posts, o) || o == sent
  {
    PublishAnswersOwnPost(posts, sent);
    next := Publish(posts, sent).0;
    var at := Publish(posts, sent).1;
    assert next[at].origin == sent;
    if Posted(posts, o) {
      var i :| 0 <= i < |posts| && posts[i].origin == o;
      assert next[i].origin == o;
    }
  }

  /** Every answer is the one post of its request's origin: requests share a post exactly when they have the same origin. */
  lemma {:induction false} AnswersAreOwnPosts(posts: seq<Post>, os: seq<Origin>, i: nat)
    requires Distinct(posts) && AllValid(os) && i < |os|
    ensures var after, answers := PublishAll(posts, os), Answers(posts, os);
            && |answers| == |os| && answers[i] < |after| && after[answers[i]].origin == os[i]
            && forall j :: 0 <= j < |after| && after[j].origin == os[i] ==> j == answers[i]
    decreases |os|
  {
    var (next, at) := Publish(posts, os[0]);
    PublishAnswersOwnPost(posts, os[0]);
    PublishAllPosts(next, os[1..], os[0]);
    AnswersAsMany(posts, os);
    if i == 0 {
      var after := PublishAll(posts, os);
      assert after[at] == next[at];
      forall j | 0 <= j < |after| && after[j].origin == os[0] ensures j == at {
        assert after[j].key == after[at].key;
      }
    } else {
      AnswersAreOwnPosts(next, os[1..], i - 1);
    }
  }

  lemma {:induction false} AnswersAsMany(posts: seq<Post>, os: seq<Origin>)
    ensures |Answers(posts, os)| == |os|
    decreases |os|
  {
    if os != [] { AnswersAsMany(Publish(posts, os[0]).0, os[1..]); }
  }

  // ---------------------------------------------------------------------------
  // Over all runs of a bot
  // ---------------------------------------------------------------------------

  /** The service takes a step, the post of the run being executed reaches the server, or another post does: one of another bot,
      or one that was long under way. Whether an answer gets back, and whether the run is ever finished, is left to the steps
      that follow. */
  datatype Act = OfService(e: Event) | Deliver | Another(o: Origin)

  function OriginOf(bot: Bot, job: Job): Origin {
    Origin(bot.id, job.kind != Scheduled, job.slot)
  }

  predicate Posts(job: Job) {
    job.kind == Scheduled || job.kind == ByHand
  }

  function Sent(bot: Bot, w: World, act: Act): seq<Origin> {
    match act
    case OfService(_) => []
    case Deliver => if w.inFlight.Some? && Posts(w.inFlight.value) then [OriginOf(bot, w.inFlight.value)] else []
    case Another(o) => [o]
  }

  function Acted(bot: Bot, w: World, act: Act): World {
    if act.OfService? then Step(bot, w, act.e) else w
  }

  function AfterActs(bot: Bot, w: World, acts: seq<Act>): World
    decreases |acts|
  {
    if acts == [] then w else AfterActs(bot, Acted(bot, w, acts[0]), acts[1..])
  }

  function Events(acts: seq<Act>): seq<Event> {
    if acts == [] then [] else (if acts[0].OfService? then [acts[0].e] else []) + Events(acts[1..])
  }

  /** What reaches the server, in order. */
  function Delivered(bot: Bot, w: World, acts: seq<Act>): seq<Origin>
    decreases |acts|
  {
    if acts == [] then [] else Sent(bot, w, acts[0]) + Delivered(bot, Acted(bot, w, acts[0]), acts[1..])
  }

  predicate ValidActs(acts: seq<Act>) {
    forall i :: 0 <= i < |acts| && acts[i].Another? ==> NoColon(acts[i].o.id)
  }

  predicate OfOthers(bot: Bot, acts: seq<Act>) {
    forall i :: 0 <= i < |acts| && acts[i].Another? ==> NoColon(acts[i].o.id) && acts[i].o.id != bot.id
  }

  lemma {:induction false} DeliveredIsValid(bot: Bot, w: World, acts: seq<Act>)
    requires NoColon(bot.id) && ValidActs(acts)
    ensures AllValid(Delivered(bot, w, acts))
    decreases |acts|
  {
    if acts != [] {
      assert ValidActs(acts[1..]);
      DeliveredIsValid(bot, Acted(bot, w, acts[0]), acts[1..]);
    }
  }

  /** Whatever the service and the other bots do - retries, lost answers, jobs lost to a power cut between the post and its
      record, posts that arrive late or again, restarts, any clock: of each bot, kind and slot the server has exactly one post if it
      had one or one was delivered, else none. */
  lemma OnePostPerDelivered(bot: Bot, w: World, posts: seq<Post>, acts: seq<Act>, o: Origin)
    requires Distinct(posts) && NoColon(bot.id) && ValidActs(acts)
    ensures var delivered := Delivered(bot, w, acts);
            CountOrigin(PublishAll(posts, delivered), o) == if Posted(posts, o) || o in delivered then 1 else 0
  {
    DeliveredIsValid(bot, w, acts);
    PublishAllPosts(posts, Delivered(bot, w, acts), o);
    DistinctMeansOne(PublishAll(posts, Delivered(bot, w, acts)), o);
  }

  /** Every post of the bot is of a run the service started. */
  lemma {:induction false} DeliveredIsIssued(bot: Bot, w: World, acts: seq<Act>, o: Origin) returns (job: Job)
    requires OfOthers(bot, acts) && o in Delivered(bot, w, acts) && o.id == bot.id
    ensures o == OriginOf(bot, job) && Posts(job)
    ensures w.inFlight == Some(job) || job in Jobs(bot, w, Events(acts))
    decreases |acts|
  {
    var next, act := Acted(bot, w, acts[0]), acts[0];
    assert OfOthers(bot, acts[1..]);
    if o in Sent(bot, w, act) { job := w.inFlight.value; } else {
      job := DeliveredIsIssued(bot, next, acts[1..], o);
      if act.OfService? {
        assert Events(acts)[0] == act.e && Events(acts)[1..] == Events(acts[1..]);
        assert next.inFlight == Some(job) ==> w.inFlight == Some(job) || Issued(bot, w, act.e) == Some(job);
      } else {
        assert Events(acts) == Events(acts[1..]);
      }
    }
  }

  // ---------------------------------------------------------------------------
  // A slot that was settled
  // ---------------------------------------------------------------------------

  ghost predicate ActsNoEarlier(bot: Bot, w: World, acts: seq<Act>, x: nat)
    decreases |acts|
  {
    acts != [] ==>
      (acts[0].OfService? ==> NoEarlier(bot, w, acts[0].e, x)) && ActsNoEarlier(bot, Acted(bot, w, acts[0]), acts[1..], x)
  }

  ghost predicate Gone(bot: Bot, w: World, x: nat) {
    Past(bot, w, x) && (w.inFlight.Some? && w.inFlight.value.kind == Scheduled ==> x < w.inFlight.value.slot)
  }

  lemma GoneIsKept(bot: Bot, w: World, act: Act, x: nat)
    requires Gone(bot, w, x) && (act.OfService? ==> NoEarlier(bot, w, act.e, x))
    ensures Gone(bot, Acted(bot, w, act), x)
  {
    if act.OfService? { PastIsKept(bot, w, act.e, x); }
  }

  /** No post for a slot behind the bot is sent any more. */
  lemma {:induction false} GoneIsNotDelivered(bot: Bot, w: World, acts: seq<Act>, x: nat, slot: nat)
    requires Gone(bot, w, x) && ActsNoEarlier(bot, w, acts, x) && OfOthers(bot, acts) && slot <= x
    ensures Origin(bot.id, false, slot) !in Delivered(bot, w, acts)
    decreases |acts|
  {
    if acts != [] {
      assert OfOthers(bot, acts[1..]);
      GoneIsKept(bot, w, acts[0], x);
      GoneIsNotDelivered(bot, Acted(bot, w, acts[0]), acts[1..], x, slot);
    }
  }

  /** The run for a slot ends without a retry to come, and that is saved. From then on the slot, and each one before it, has as many
      posts as it had: one if any of its tries delivered one, in whatever boot, and none otherwise. */
  lemma SettledSlotHasItsPosts(bot: Bot, w0: World, posts: seq<Post>, before: seq<Act>, w: World, started: nat, now: nat,
                               outcome: Outcome, after: seq<Act>, slot: nat)
    requires Distinct(posts) && NoColon(bot.id) && ValidActs(before) && OfOthers(bot, after)
    requires w == AfterActs(bot, w0, before) && w.inFlight.Some? && w.inFlight.value.kind == Scheduled
    requires !WillRetry(bot, w.s, w.inFlight.value, now, outcome) && slot <= w.inFlight.value.slot
    requires ActsNoEarlier(bot, Step(bot, w, FinishAt(started, now, outcome, true)), after, w.inFlight.value.slot)
    ensures var o, delivered := Origin(bot.id, false, slot), Delivered(bot, w0, before);
            var settled := Step(bot, w, FinishAt(started, now, outcome, true));
            CountOrigin(PublishAll(PublishAll(posts, delivered), Delivered(bot, settled, after)), o)
            == CountOrigin(PublishAll(posts, delivered), o)
            == if Posted(posts, o) || o in delivered then 1 else 0
  {
    var o, x := Origin(bot.id, false, slot), w.inFlight.value.slot;
    var settled := Step(bot, w, FinishAt(started, now, outcome, true));
    var first := PublishAll(posts, Delivered(bot, w0, before));
    OnePostPerDelivered(bot, w0, posts, before, o);
    DeliveredIsValid(bot, w0, before);
    PublishAllPosts(posts, Delivered(bot, w0, before), o);
    SettledIsPast(bot, w, started, now, outcome);
    GoneIsNotDelivered(bot, settled, after, x, slot);
    OnePostPerDelivered(bot, settled, first, after, o);
  }
}
