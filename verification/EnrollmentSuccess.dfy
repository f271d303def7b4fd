// A setup that is answered succeeds (mastomini_bots/src/enrollment.rs): from any state that interrupted setups leave, a run of
// `connect` whose requests are answered and whose saves are written ends with both keys configured.
module EnrollmentSuccess {
  import opened Options
  import opened Enrollment

  // ---------------------------------------------------------------------------
  // Which key belongs to which bot
  // ---------------------------------------------------------------------------

  /** The news bot reads NanaCoin with Nana's own key; the others have a key of their account. */
  predicate KeyFits(bot: string, draft: Draft) {
    draft.ncKey.Some? ==> (draft.ncKey == Some(ReadKey) <==> bot == NEWS)
  }

  predicate OwnAccount(next: Next) {
    next.ListUsers? || next.Recover? || next.CreateUser? || next.SaveUser? || next.Prove? || next.IssueKey?
  }

  ghost predicate OursAreBots(accounts: seq<Account>) {
    forall i :: 0 <= i < |accounts| && accounts[i].password.Ours? ==> accounts[i].bot
  }

  ghost predicate Kinds(w: World) {
    && OursAreBots(w.nana) && OursAreBots(w.mini)
    && (forall bot :: bot in w.drafts ==> KeyFits(bot, w.drafts[bot]))
    && (w.work.Some? ==>
          var k := w.work.value;
          KeyFits(k.bot, k.draft) && (OwnAccount(k.next) ==> k.bot != NEWS) && (k.next.ReadNanaKey? ==> k.bot == NEWS))
  }

  lemma SavingKeepsKinds(w: World, k: Work, fate: Fate, written: bool)
    requires Kinds(w) && w.work == Some(k) && Saves(k.next)
    ensures Kinds(Advance(w, k, fate, written))
  {
  }

  lemma SendingKeepsKinds(w: World, k: Work, fate: Fate, written: bool)
    requires Kinds(w) && w.work == Some(k) && Sends(k.next)
    ensures Kinds(Advance(w, k, fate, written))
  {
  }

  lemma QuietKeepsKinds(w: World, k: Work, fate: Fate, written: bool)
    requires Kinds(w) && w.work == Some(k) && !Saves(k.next) && !Sends(k.next)
    ensures Kinds(Advance(w, k, fate, written))
  {
    QuietGrows(w, k, fate, written);
  }

  lemma AdvanceKeepsKinds(w: World, k: Work, fate: Fate, written: bool)
    requires Kinds(w) && w.work == Some(k)
    ensures Kinds(Advance(w, k, fate, written))
  {
    if Saves(k.next) { SavingKeepsKinds(w, k, fate, written); }
    else if Sends(k.next) { SendingKeepsKinds(w, k, fate, written); }
    else { QuietKeepsKinds(w, k, fate, written); }
  }

  lemma StepKeepsKinds(w: World, step: Step)
    requires Kinds(w)
    ensures Kinds(Do(w, step))
  {
    match step
    case Proceed(fate, written) => if w.work.Some? { AdvanceKeepsKinds(w, w.work.value, fate, written); }
    case _ =>
  }

  lemma {:induction false} RunKeepsKinds(w: World, steps: seq<Step>)
    requires Kinds(w)
    ensures Kinds(Run(w, steps))
    decreases |steps|
  {
    if steps != [] {
      StepKeepsKinds(w, steps[0]);
      RunKeepsKinds(Do(w, steps[0]), steps[1..]);
    }
  }

  /** The setup of the news bot asks NanaCoin for no account. */
  lemma NewsCreatesNoUser(w: World, fate: Fate, written: bool)
    requires Kinds(w) && w.work.Some? && w.work.value.bot == NEWS
    ensures Do(w, Proceed(fate, written)).nana == w.nana
  {
  }

  // ---------------------------------------------------------------------------
  // What a setup needs
  // ---------------------------------------------------------------------------

  /** The name is free, or its account has the password. */
  ghost predicate Open(accounts: seq<Account>, draft: Draft) {
    forall i :: 0 <= i < |accounts| && accounts[i].username == draft.username ==> accounts[i].password == draft.password
  }

  predicate NanaDone(k: Work) {
    k.had.nc.Some? || k.draft.ncKey.Some?
  }

  predicate MiniDone(k: Work) {
    k.had.mm.Some? || k.draft.mmKey.Some?
  }

  ghost predicate NanaReady(w: World, k: Work) {
    NanaDone(k) || k.bot == NEWS || k.draft.ncId.Some? || Open(w.nana, k.draft)
  }

  ghost predicate MiniReady(w: World, k: Work) {
    MiniDone(k) || k.draft.mmId.Some? || Open(w.mini, k.draft)
  }

  ghost predicate OnTrack(w: World, k: Work) {
    && Inv(w) && Kinds(w) && w.work == Some(k)
    && match k.next
       case SaveFirst => NanaReady(w, k) && MiniReady(w, k)
       case ReadNanaKey => MiniReady(w, k)
       case ListUsers => Open(w.nana, k.draft) && MiniReady(w, k)
       case Recover => Open(w.nana, k.draft) && FindName(w.nana, k.draft.username).Some? && MiniReady(w, k)
       case CreateUser => FindName(w.nana, k.draft.username).None? && MiniReady(w, k)
       case SaveUser => k.draft.ncId.Some? && MiniReady(w, k)
       case Prove => k.draft.ncId.Some? && MiniReady(w, k)
       case IssueKey => k.draft.ncId.Some? && MiniReady(w, k)
       case SaveKey => NanaDone(k) && MiniReady(w, k)
       case CreateBot => NanaDone(k) && Open(w.mini, k.draft)
       case SaveBot => NanaDone(k) && k.draft.mmId.Some?
       case IssueBotKey => NanaDone(k) && k.draft.mmId.Some?
       case _ => NanaDone(k) && MiniDone(k)
  }

  /** At most so many answers are left to come. */
  function Left(next: Next): nat {
    match next
    case SaveFirst => 13
    case ListUsers => 12
    case Recover => 11
    case CreateUser => 11
    case SaveUser => 10
    case Prove => 9
    case IssueKey => 8
    case ReadNanaKey => 8
    case SaveKey => 7
    case CreateBot => 6
    case SaveBot => 5
    case IssueBotKey => 4
    case SaveBotKey => 3
    case CheckKeys => 2
    case Configure => 1
  }

  /** The same setup, one answer later. */
  ghost predicate Continues(k: Work, later: Work) {
    && later.bot == k.bot && later.had == k.had && later.draft.username == k.draft.username
    && later.draft.password == k.draft.password && Left(later.next) < Left(k.next)
  }

  lemma OpenIsProved(accounts: seq<Account>, draft: Draft)
    requires Open(accounts, draft)
    ensures var at := FindName(accounts, draft.username);
            at.Some? ==> at.value < |accounts| && accounts[at.value].password == draft.password
                         && accounts[at.value].username == draft.username
  {
    FindNameFinds(accounts, draft.username);
  }

  lemma ListGoesOn(w: World, k: Work)
    requires OnTrack(w, k) && (k.next.ListUsers? || k.next.Recover? || k.next.CreateUser?)
    ensures var v := Do(w, ANSWERED); v.work.Some? && OnTrack(v, v.work.value) && Continues(k, v.work.value) && v.keys == w.keys
  {
    StepKeepsInv(w, ANSWERED);
    StepKeepsKinds(w, ANSWERED);
    if !k.next.CreateUser? { OpenIsProved(w.nana, k.draft); }
  }

  lemma CheckGoesOn(w: World, k: Work)
    requires OnTrack(w, k) && (k.next.Prove? || k.next.CheckKeys?)
    ensures var v := Do(w, ANSWERED); v.work.Some? && OnTrack(v, v.work.value) && Continues(k, v.work.value) && v.keys == w.keys
  {
    StepKeepsInv(w, ANSWERED);
    StepKeepsKinds(w, ANSWERED);
    if k.next.Prove? { NameIsThere(w.nana, k.draft.username, k.draft.ncId.value); }
  }

  lemma KeyGoesOn(w: World, k: Work)
    requires OnTrack(w, k) && (k.next.IssueKey? || k.next.ReadNanaKey? || k.next.IssueBotKey?)
    ensures var v := Do(w, ANSWERED); v.work.Some? && OnTrack(v, v.work.value) && Continues(k, v.work.value) && v.keys == w.keys
  {
    StepKeepsInv(w, ANSWERED);
    StepKeepsKinds(w, ANSWERED);
  }

  lemma CreateBotGoesOn(w: World, k: Work)
    requires OnTrack(w, k) && k.next.CreateBot?
    ensures var v := Do(w, ANSWERED); v.work.Some? && OnTrack(v, v.work.value) && Continues(k, v.work.value) && v.keys == w.keys
  {
    StepKeepsInv(w, ANSWERED);
    StepKeepsKinds(w, ANSWERED);
    OpenIsProved(w.mini, k.draft);
  }

  lemma SaveGoesOn(w: World, k: Work)
    requires OnTrack(w, k) && Saves(k.next)
    ensures var v := Do(w, ANSWERED); v.work.Some? && OnTrack(v, v.work.value) && Continues(k, v.work.value) && v.keys == w.keys
  {
    StepKeepsInv(w, ANSWERED);
    StepKeepsKinds(w, ANSWERED);
  }

  lemma AnswerGoesOn(w: World, k: Work)
    requires OnTrack(w, k) && !k.next.Configure?
    ensures var v := Do(w, ANSWERED); v.work.Some? && OnTrack(v, v.work.value) && Continues(k, v.work.value) && v.keys == w.keys
  {
    if Saves(k.next) { SaveGoesOn(w, k); }
    else if k.next.CreateBot? { CreateBotGoesOn(w, k); }
    else if k.next.ListUsers? || k.next.Recover? || k.next.CreateUser? { ListGoesOn(w, k); }
    else if k.next.Prove? || k.next.CheckKeys? { CheckGoesOn(w, k); }
    else { KeyGoesOn(w, k); }
  }

  // ---------------------------------------------------------------------------
  // A setup that is answered to its end
  // ---------------------------------------------------------------------------

  function Answers(n: nat): seq<Step> {
    if n == 0 then [] else [ANSWERED] + Answers(n - 1)
  }

  /** The step configures the bot, or finds that it had both keys. */
  predicate Completes(w: World, step: Step) {
    step.Proceed? && w.work.Some? && w.work.value.next.Configure?
    && (step.written || (w.work.value.had.nc.Some? && w.work.value.had.mm.Some?))
  }

  /** `connect` has come to its end without an error. */
  predicate Completed(w: World, steps: seq<Step>)
    decreases |steps|
  {
    steps != [] && (Completes(w, steps[0]) || Completed(Do(w, steps[0]), steps[1..]))
  }

  /** The key is that of the account with the name and the password. */
  ghost predicate KeyOfName(accounts: seq<Account>, username: string, password: Password, key: Option<Key>) {
    exists id: nat :: id < |accounts| && accounts[id].username == username && accounts[id].password == password
                      && key == Some(KeyOf(id))
  }

  /** From the keys of `w`: the bot has those it had and new ones for what it had not, and no other bot's keys change. */
  ghost predicate Connected(w: World, v: World, bot: string, username: string, password: Password) {
    var had := KeysOf(w, bot);
    if had.nc.Some? && had.mm.Some? then v.keys == w.keys
    else
      && bot in v.keys && v.keys == w.keys[bot := v.keys[bot]]
      && (if had.nc.Some? then v.keys[bot].nc == had.nc
          else if bot == NEWS then v.keys[bot].nc == Some(ReadKey)
          else KeyOfName(v.nana, username, password, v.keys[bot].nc))
      && (if had.mm.Some? then v.keys[bot].mm == had.mm else KeyOfName(v.mini, username, password, v.keys[bot].mm))
  }

  lemma ConfigureEnds(w: World, k: Work)
    requires OnTrack(w, k) && k.next.Configure? && k.had == KeysOf(w, k.bot)
    ensures var v := Do(w, ANSWERED); v.work.None? && Connected(w, v, k.bot, k.draft.username, k.draft.password)
  {
    if k.had.nc.None? && k.bot != NEWS { KeysAreOfName(w, k.draft); }
    if k.had.mm.None? { KeysAreOfName(w, k.draft); }
  }

  lemma KeysAreOfName(w: World, draft: Draft)
    requires DraftOk(w, draft)
    ensures draft.ncKey.Some? && draft.ncKey != Some(ReadKey) ==> KeyOfName(w.nana, draft.username, draft.password, draft.ncKey)
    ensures draft.mmKey.Some? ==> KeyOfName(w.mini, draft.username, draft.password, draft.mmKey)
  {
    if draft.ncKey.Some? && draft.ncKey != Some(ReadKey) {
      assert draft.ncKey.value == KeyOf(draft.ncKey.value.account);
      assert draft.ncKey == Some(KeyOf(draft.ncId.value));
    }
    if draft.mmKey.Some? { assert draft.mmKey == Some(KeyOf(draft.mmId.value)); }
  }

  lemma {:induction false} NothingLeft(w: World, n: nat)
    requires w.work.None?
    ensures Run(w, Answers(n)) == w && !Completed(w, Answers(n))
  {
    if n > 0 {
      assert Answers(n)[1..] == Answers(n - 1);
      NothingLeft(w, n - 1);
    }
  }

  lemma {:induction false} TrackEnds(w: World, k: Work, n: nat)
    requires OnTrack(w, k) && k.had == KeysOf(w, k.bot) && Left(k.next) <= n
    ensures var v := Run(w, Answers(n)); v.work.None? && Connected(w, v, k.bot, k.draft.username, k.draft.password)
    ensures Completed(w, Answers(n))
    decreases n
  {
    var v := Do(w, ANSWERED);
    assert Answers(n)[0] == ANSWERED && Answers(n)[1..] == Answers(n - 1);
    if k.next.Configure? {
      ConfigureEnds(w, k);
      NothingLeft(v, n - 1);
    } else {
      AnswerGoesOn(w, k);
      TrackEnds(v, v.work.value, n - 1);
    }
  }

  /** The draft a setup of the bot starts with. */
  function DraftFor(w: World, bot: string, username: string): Draft {
    if bot in w.drafts then w.drafts[bot] else Draft(username, Ours(w.tokens), None, None, None, None)
  }

  /** Nothing is at work; the saved draft, if any, is for the name; and on each server where the bot has no key and the draft has
      neither key nor account, the name is free or its account has the draft's password. */
  ghost predicate CanSetUp(w: World, bot: string, username: string) {
    var draft, had := DraftFor(w, bot, username), KeysOf(w, bot);
    && w.work.None? && draft.username == username
    && (had.nc.Some? || draft.ncKey.Some? || bot == NEWS || draft.ncId.Some? || Open(w.nana, draft))
    && (had.mm.Some? || draft.mmKey.Some? || draft.mmId.Some? || Open(w.mini, draft))
  }

  lemma SetupBegins(w: World, bot: string, username: string)
    requires Inv(w) && Kinds(w) && CanSetUp(w, bot, username)
    ensures var v := Do(w, Begin(bot, username));
            && v.keys == w.keys && v.work == Some(Work(bot, DraftFor(w, bot, username), KeysOf(w, bot), SaveFirst))
            && OnTrack(v, v.work.value)
  {
    StepKeepsInv(w, Begin(bot, username));
    StepKeepsKinds(w, Begin(bot, username));
  }

  /** A fresh setup, or one resumed from any draft that interrupted ones left, whose requests are answered and whose saves are
      written: after at most thirteen of them the bot has the keys it had before, and where it had none those of the accounts
      of its name - the news bot Nana's key to read with. */
  lemma AnsweredSetupSucceeds(w: World, bot: string, username: string, n: nat)
    requires Inv(w) && Kinds(w) && CanSetUp(w, bot, username) && 13 <= n
    ensures var steps := [Begin(bot, username)] + Answers(n);
            && Run(w, steps).work.None? && Completed(w, steps)
            && Connected(w, Run(w, steps), bot, username, DraftFor(w, bot, username).password)
  {
    SetupBegins(w, bot, username);
    var begun := Do(w, Begin(bot, username));
    TrackEnds(begun, begun.work.value, n);
    RunOne(w, Begin(bot, username), Answers(n));
    assert ([Begin(bot, username)] + Answers(n))[1..] == Answers(n);
  }

  /** So it does after any number of interrupted setups. */
  lemma ResumedSetupSucceeds(history: seq<Step>, bot: string, username: string)
    requires CanSetUp(Run(START, history), bot, username)
    ensures var w := Run(START, history); var v := Run(w, [Begin(bot, username)] + Answers(13));
            v.work.None? && Connected(w, v, bot, username, DraftFor(w, bot, username).password)
  {
    RunKeepsInv(START, history);
    RunKeepsKinds(START, history);
    AnsweredSetupSucceeds(Run(START, history), bot, username, 13);
  }

  // ---------------------------------------------------------------------------
  // However many answers that took
  // ---------------------------------------------------------------------------

  lemma {:induction false} AnswersJoin(m: nat, n: nat)
    ensures Answers(m) + Answers(n) == Answers(m + n)
  {
    if m > 0 {
      AnswersJoin(m - 1, n);
      assert Answers(m) + Answers(n) == [ANSWERED] + (Answers(m - 1) + Answers(n));
    } else {
      assert [] + Answers(n) == Answers(n);
    }
  }

  lemma AnswersEnd(n: nat)
    ensures Answers(n) + [ANSWERED] == Answers(n + 1)
  {
    AnswersJoin(n, 1);
    assert Answers(1) == [ANSWERED] + [] == [ANSWERED];
  }

  lemma {:induction false} AnswersThenMore(w: World, m: nat, n: nat)
    requires Run(w, Answers(m)).work.None?
    ensures Run(w, Answers(m + n)) == Run(w, Answers(m)) && (Completed(w, Answers(m + n)) <==> Completed(w, Answers(m)))
    decreases m
  {
    if m == 0 { NothingLeft(w, n); } else {
      assert Answers(m)[1..] == Answers(m - 1) && Answers(m + n)[1..] == Answers(m - 1 + n);
      AnswersThenMore(Do(w, ANSWERED), m - 1, n);
    }
  }

  /** A setup that is answered and has come to an end has succeeded. */
  lemma EndedHasSucceeded(w: World, bot: string, username: string, n: nat)
    requires Inv(w) && Kinds(w) && CanSetUp(w, bot, username)
    requires Run(w, [Begin(bot, username)] + Answers(n)).work.None?
    ensures var steps := [Begin(bot, username)] + Answers(n);
            Completed(w, steps) && Connected(w, Run(w, steps), bot, username, DraftFor(w, bot, username).password)
  {
    var begun := Do(w, Begin(bot, username));
    AnsweredSetupSucceeds(w, bot, username, n + 13);
    RunOne(w, Begin(bot, username), Answers(n));
    RunOne(w, Begin(bot, username), Answers(n + 13));
    AnswersThenMore(begun, n, 13);
    assert ([Begin(bot, username)] + Answers(n))[1..] == Answers(n);
    assert ([Begin(bot, username)] + Answers(n + 13))[1..] == Answers(n + 13);
  }
}
