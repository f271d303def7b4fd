// Resumable account setup (mastomini_bots/src/enrollment.rs): what `connect` does for one bot, split at every save
// and every remote call, with two servers that may apply a request and lose the answer - or apply it much later.
module Enrollment {
  import opened Options

  /** Random passwords of drafts are fresh and distinct; everybody else has other ones. */
  datatype Password = Ours(n: nat) | Theirs(n: nat)

  /** `ours`: created by a request of the setup. Ids are the places of the accounts. */
  datatype Account = Account(username: string, password: Password, bot: bool, ours: bool)

  datatype Key = ReadKey | KeyOf(account: nat)

  /** The journal of one bot: its generated credentials and what has been obtained with them. */
  datatype Draft = Draft(username: string, password: Password,
                         ncId: Option<nat>, ncKey: Option<Key>, mmId: Option<nat>, mmKey: Option<Key>)

  /** The keys of a configured bot. */
  datatype Keys = Keys(nc: Option<Key>, mm: Option<Key>)

  /** What `connect` does next. */
  datatype Next = SaveFirst
                | ReadNanaKey | ListUsers | Recover | CreateUser | SaveUser | Prove | IssueKey | SaveKey
                | CreateBot | SaveBot | IssueBotKey | SaveBotKey | CheckKeys | Configure

  /** `connect` at work: the bot, its draft in memory, and the keys it had. */
  datatype Work = Work(bot: string, draft: Draft, had: Keys, next: Next)

  datatype Request = NanaCreate(username: string, password: Password) | MiniCreate(username: string, password: Password)

  /** `drafts` and `keys` are durable. `sent` are the create requests that may still be applied. */
  datatype World = World(drafts: map<string, Draft>, keys: map<string, Keys>, tokens: nat, work: Option<Work>,
                         nana: seq<Account>, mini: seq<Account>, sent: set<Request>)

  // ---------------------------------------------------------------------------
  // The servers
  // ---------------------------------------------------------------------------

  function FindName(accounts: seq<Account>, username: string): Option<nat> {
    if accounts == [] then None
    else
      var n := |accounts| - 1;
      var found := FindName(accounts[..n], username);
      if found.Some? then found else if accounts[n].username == username then Some(n) else None
  }

  /** NanaCoin refuses a taken name. */
  function NanaUsers(accounts: seq<Account>, username: string, password: Password): seq<Account> {
    if FindName(accounts, username).Some? then accounts else accounts + [Account(username, password, true, true)]
  }

  /** A login answers with the account's id. */
  function Login(accounts: seq<Account>, username: string, password: Password): Option<nat> {
    var at := FindName(accounts, username);
    if at.Some? && at.value < |accounts| && accounts[at.value].password == password then at else None
  }

  /** Mastomini returns an account that the password proves to be this setup's, and refuses any other of the name. */
  function MiniMember(accounts: seq<Account>, username: string, password: Password): Option<nat> {
    var at := FindName(accounts, username);
    if at.None? then Some(|accounts|)
    else if at.value < |accounts| && accounts[at.value].bot && accounts[at.value].password == password then at
    else None
  }

  // ---------------------------------------------------------------------------
  // Steps
  // ---------------------------------------------------------------------------

  /** What becomes of a request: lost, for now; applied, but not answered; answered with an error; answered. */
  datatype Fate = Lost | Unanswered | Refused | Answered

  datatype Step =
    | Begin(bot: string, username: string)
    | Proceed(fate: Fate, written: bool)
    | PowerCut
    | Arrive(request: Request)
    | OthersCreate(atNana: bool, account: Account)
    | OthersConfigure(bot: string, keys: Keys)

  const NEWS: string := "nana_news"

  const NO_KEYS := Keys(None, None)

  function KeysOf(w: World, bot: string): Keys {
    if bot in w.keys then w.keys[bot] else NO_KEYS
  }

  /** The next thing to get, skipping what is there already. */
  function AfterNana(draft: Draft, had: Keys): Next {
    if draft.mmKey.Some? || had.mm.Some? then CheckKeys else if draft.mmId.None? then CreateBot else IssueBotKey
  }

  function AfterFirst(bot: string, draft: Draft, had: Keys): Next {
    if draft.ncKey.Some? || had.nc.Some? then AfterNana(draft, had)
    else if bot == NEWS then ReadNanaKey
    else if draft.ncId.None? then ListUsers
    else Prove
  }

  function Apply(w: World, request: Request): World {
    match request
    case NanaCreate(username, password) => w.(nana := NanaUsers(w.nana, username, password))
    case MiniCreate(username, password) =>
      var id := MiniMember(w.mini, username, password);
      if id == Some(|w.mini|) then w.(mini := w.mini + [Account(username, password, true, true)]) else w
  }

  /** Ends with an error; the draft in memory goes. */
  function Stop(w: World): World {
    w.(work := None)
  }

  function GoOn(w: World, work: Work, draft: Draft, next: Next): World {
    w.(work := Some(work.(draft := draft, next := next)))
  }

  function Saved(w: World, work: Work, next: Next, written: bool): World {
    if written then GoOn(w.(drafts := w.drafts[work.bot := work.draft]), work, work.draft, next) else Stop(w)
  }

  /** Starts with the saved draft, if it is for the same name, or with a new one. */
  function Started(w: World, bot: string, username: string): World {
    if w.work.Some? then w
    else if bot in w.drafts then
      (if w.drafts[bot].username != username then w
       else w.(work := Some(Work(bot, w.drafts[bot], KeysOf(w, bot), SaveFirst))))
    else
      var draft := Draft(username, Ours(w.tokens), None, None, None, None);
      w.(tokens := w.tokens + 1, work := Some(Work(bot, draft, KeysOf(w, bot), SaveFirst)))
  }

  /** A create request, as far as it gets. */
  function Send(w: World, request: Request, fate: Fate): World {
    var sent := w.(sent := w.sent + {request});
    if fate == Unanswered || fate == Answered then Apply(sent, request) else sent
  }

  /** `connect` up to its next save or remote call. */
  function Advance(w: World, k: Work, fate: Fate, written: bool): World {
    var d := k.draft;
    match k.next
    case SaveFirst => Saved(w, k, AfterFirst(k.bot, d, k.had), written)
    case ReadNanaKey => if fate != Answered then Stop(w) else GoOn(w, k, d.(ncKey := Some(ReadKey)), SaveKey)
    case ListUsers =>
      var at := FindName(w.nana, d.username);
      if fate != Answered then Stop(w)
      else if at.None? then GoOn(w, k, d, CreateUser)
      else if at.value < |w.nana| && w.nana[at.value].bot then GoOn(w, k, d, Recover)
      else Stop(w)
    case Recover =>
      var id := Login(w.nana, d.username, d.password);
      if fate != Answered || id.None? then Stop(w) else GoOn(w, k, d.(ncId := id), SaveUser)
    case CreateUser =>
      var taken := FindName(w.nana, d.username).Some?;
      var after := Send(w, NanaCreate(d.username, d.password), fate);
      if fate != Answered || taken then Stop(after) else GoOn(after, k, d.(ncId := Some(|w.nana|)), SaveUser)
    case SaveUser => Saved(w, k, Prove, written)
    case Prove =>
      var id := Login(w.nana, d.username, d.password);
      if fate != Answered || id.None? || id != d.ncId || !w.nana[id.value].bot then Stop(w) else GoOn(w, k, d, IssueKey)
    case IssueKey => if fate != Answered || d.ncId.None? then Stop(w) else GoOn(w, k, d.(ncKey := Some(KeyOf(d.ncId.value))), SaveKey)
    case SaveKey => Saved(w, k, AfterNana(d, k.had), written)
    case CreateBot =>
      var id := MiniMember(w.mini, d.username, d.password);
      var after := Send(w, MiniCreate(d.username, d.password), fate);
      if fate != Answered || id.None? then Stop(after) else GoOn(after, k, d.(mmId := id), SaveBot)
    case SaveBot => Saved(w, k, IssueBotKey, written)
    case IssueBotKey =>
      if fate != Answered || d.mmId.None? then Stop(w) else GoOn(w, k, d.(mmKey := Some(KeyOf(d.mmId.value))), SaveBotKey)
    case SaveBotKey => Saved(w, k, CheckKeys, written)
    case CheckKeys => if fate != Answered then Stop(w) else GoOn(w, k, d, Configure)
    case Configure =>
      var keys := Keys(if k.had.nc.Some? then k.had.nc else d.ncKey, if k.had.mm.Some? then k.had.mm else d.mmKey);
      Stop(if written && !(k.had.nc.Some? && k.had.mm.Some?) then w.(keys := w.keys[k.bot := keys]) else w)
  }

  function Do(w: World, step: Step): World {
    match step
    case Begin(bot, username) => Started(w, bot, username)
    case Proceed(fate, written) => if w.work.None? then w else Advance(w, w.work.value, fate, written)
    case PowerCut => Stop(w)
    case Arrive(request) => if request in w.sent then Apply(w, request) else w
    case OthersCreate(atNana, account) =>
      var known := FindName(if atNana then w.nana else w.mini, account.username).Some?;
      if known || account.password.Ours? || account.ours then w
      else if atNana then w.(nana := w.nana + [account]) else w.(mini := w.mini + [account])
    case OthersConfigure(bot, keys) => w.(keys := w.keys[bot := keys])
  }

  function Run(w: World, steps: seq<Step>): World
    decreases |steps|
  {
    if steps == [] then w else Run(Do(w, steps[0]), steps[1..])
  }

  // ---------------------------------------------------------------------------
  // The invariant
  // ---------------------------------------------------------------------------

  /** The credentials are those of a durable draft. */
  ghost predicate Journaled(drafts: map<string, Draft>, username: string, password: Password) {
    exists bot :: bot in drafts && drafts[bot].username == username && drafts[bot].password == password
  }

  ghost predicate ServerOk(accounts: seq<Account>, drafts: map<string, Draft>) {
    && (forall i, j :: 0 <= i < j < |accounts| ==> accounts[i].username != accounts[j].username)
    && (forall i :: 0 <= i < |accounts| && (accounts[i].ours || accounts[i].password.Ours?) ==>
          Journaled(drafts, accounts[i].username, accounts[i].password))
  }

  /** The account is there under the draft's name and with its password. */
  predicate Proved(accounts: seq<Account>, id: Option<nat>, draft: Draft) {
    id.Some? ==> id.value < |accounts| && accounts[id.value].username == draft.username
                 && accounts[id.value].password == draft.password
  }

  predicate DraftOk(w: World, draft: Draft) {
    && draft.password.Ours? && draft.password.n < w.tokens
    && Proved(w.nana, draft.ncId, draft) && Proved(w.mini, draft.mmId, draft)
    && (draft.ncKey.Some? && draft.ncKey.value.KeyOf? ==> draft.ncId == Some(draft.ncKey.value.account))
    && (draft.mmKey.Some? ==> draft.mmKey.value.KeyOf? && draft.mmId == Some(draft.mmKey.value.account))
  }

  /** A later draft has all that an earlier one has. */
  predicate Extends(later: Draft, earlier: Draft) {
    && later.username == earlier.username && later.password == earlier.password
    && (earlier.ncId.Some? ==> later.ncId == earlier.ncId) && (earlier.mmId.Some? ==> later.mmId == earlier.mmId)
    && (earlier.ncKey.Some? ==> later.ncKey == earlier.ncKey) && (earlier.mmKey.Some? ==> later.mmKey == earlier.mmKey)
  }

  /** What is to be got is not there yet. */
  predicate NextFits(draft: Draft, next: Next) {
    && (next.ReadNanaKey? || next.ListUsers? || next.Recover? || next.CreateUser? || next.SaveUser? || next.Prove? || next.IssueKey? ==>
          draft.ncKey.None?)
    && (next.ListUsers? || next.Recover? || next.CreateUser? ==> draft.ncId.None?)
    && (next.CreateBot? ==> draft.mmId.None? && draft.mmKey.None?)
    && (next.SaveBot? || next.IssueBotKey? ==> draft.mmKey.None?)
  }

  ghost predicate WorkOk(w: World, k: Work) {
    && DraftOk(w, k.draft)
    && (k.next != SaveFirst ==> k.bot in w.drafts)
    && (k.bot in w.drafts ==> Extends(k.draft, w.drafts[k.bot]))
    && (k.bot !in w.drafts ==> forall bot :: bot in w.drafts ==> w.drafts[bot].password != k.draft.password)
    && NextFits(k.draft, k.next)
  }

  ghost predicate Inv(w: World) {
    && ServerOk(w.nana, w.drafts) && ServerOk(w.mini, w.drafts)
    && (forall request :: request in w.sent ==> Journaled(w.drafts, request.username, request.password))
    && (forall bot :: bot in w.drafts ==> DraftOk(w, w.drafts[bot]))
    && (forall a, b :: a in w.drafts && b in w.drafts && w.drafts[a].password == w.drafts[b].password ==> a == b)
    && (w.work.Some? ==> WorkOk(w, w.work.value))
  }

  // ---------------------------------------------------------------------------
  // Every step keeps it
  // ---------------------------------------------------------------------------

  lemma {:induction false} FindNameFinds(accounts: seq<Account>, username: string)
    ensures var at := FindName(accounts, username);
            if at.Some? then at.value < |accounts| && accounts[at.value].username == username
            else forall i :: 0 <= i < |accounts| ==> accounts[i].username != username
  {
    if accounts != [] { FindNameFinds(accounts[..|accounts| - 1], username); }
  }

  lemma NewAccountKeepsServer(accounts: seq<Account>, drafts: map<string, Draft>, account: Account)
    requires ServerOk(accounts, drafts) && FindName(accounts, account.username).None?
    requires account.ours || account.password.Ours? ==> Journaled(drafts, account.username, account.password)
    ensures ServerOk(accounts + [account], drafts)
  {
    FindNameFinds(accounts, account.username);
  }

  lemma NewAccountKeepsDraft(w: World, v: World, draft: Draft)
    requires DraftOk(w, draft) && w.nana <= v.nana && w.mini <= v.mini && w.tokens <= v.tokens
    ensures DraftOk(v, draft)
  {
  }

  /** More accounts, which are in order. */
  lemma ServersGrow(w: World, v: World)
    requires Inv(w) && w.nana <= v.nana && w.mini <= v.mini && v == w.(nana := v.nana, mini := v.mini, sent := v.sent)
    requires ServerOk(v.nana, v.drafts) && ServerOk(v.mini, v.drafts)
    requires forall request :: request in v.sent ==> Journaled(v.drafts, request.username, request.password)
    ensures Inv(v)
  {
    forall bot | bot in w.drafts ensures DraftOk(v, v.drafts[bot]) { NewAccountKeepsDraft(w, v, w.drafts[bot]); }
    if w.work.Some? { NewAccountKeepsDraft(w, v, w.work.value.draft); }
  }

  lemma ApplyKeepsInv(w: World, request: Request)
    requires Inv(w) && Journaled(w.drafts, request.username, request.password)
    ensures Inv(Apply(w, request))
  {
    FindNameFinds(w.nana, request.username);
    FindNameFinds(w.mini, request.username);
    var account := Account(request.username, request.password, true, true);
    if FindName(w.nana, request.username).None? { NewAccountKeepsServer(w.nana, w.drafts, account); }
    if FindName(w.mini, request.username).None? { NewAccountKeepsServer(w.mini, w.drafts, account); }
    ServersGrow(w, Apply(w, request));
  }

  lemma SendKeepsInv(w: World, request: Request, fate: Fate)
    requires Inv(w) && Journaled(w.drafts, request.username, request.password)
    ensures Inv(Send(w, request, fate))
  {
    var sent := w.(sent := w.sent + {request});
    ServersGrow(w, sent);
    ApplyKeepsInv(sent, request);
  }

  lemma JournaledStays(drafts: map<string, Draft>, bot: string, draft: Draft, username: string, password: Password)
    requires bot in drafts ==> Extends(draft, drafts[bot])
    requires Journaled(drafts, username, password)
    ensures Journaled(drafts[bot := draft], username, password)
  {
    var at :| at in drafts && drafts[at].username == username && drafts[at].password == password;
    assert at in drafts[bot := draft];
  }

  lemma SaveKeepsServer(accounts: seq<Account>, drafts: map<string, Draft>, bot: string, draft: Draft)
    requires ServerOk(accounts, drafts) && (bot in drafts ==> Extends(draft, drafts[bot]))
    ensures ServerOk(accounts, drafts[bot := draft])
  {
    forall i | 0 <= i < |accounts| && (accounts[i].ours || accounts[i].password.Ours?)
      ensures Journaled(drafts[bot := draft], accounts[i].username, accounts[i].password)
    {
      JournaledStays(drafts, bot, draft, accounts[i].username, accounts[i].password);
    }
  }

  /** The draft in memory made durable. */
  lemma SaveKeepsInv(w: World, k: Work)
    requires Inv(w) && w.work == Some(k)
    ensures Inv(Stop(w.(drafts := w.drafts[k.bot := k.draft])))
  {
    var drafts := w.drafts[k.bot := k.draft];
    SaveKeepsServer(w.nana, w.drafts, k.bot, k.draft);
    SaveKeepsServer(w.mini, w.drafts, k.bot, k.draft);
    forall request | request in w.sent ensures Journaled(drafts, request.username, request.password) {
      JournaledStays(w.drafts, k.bot, k.draft, request.username, request.password);
    }
    forall a, b | a in drafts && b in drafts && drafts[a].password == drafts[b].password ensures a == b {
      if k.bot in w.drafts { assert w.drafts[k.bot].password == k.draft.password; }
    }
  }

  lemma GoOnKeepsInv(w: World, k: Work, draft: Draft, next: Next)
    requires Inv(w) && WorkOk(w, k.(draft := draft, next := next))
    ensures Inv(GoOn(w, k, draft, next))
  {
  }

  lemma SavedKeepsInv(w: World, k: Work, next: Next, written: bool)
    requires Inv(w) && w.work == Some(k)
    requires NextFits(k.draft, next)
    ensures Inv(Saved(w, k, next, written))
  {
    if written {
      SaveKeepsInv(w, k);
      GoOnKeepsInv(Stop(w.(drafts := w.drafts[k.bot := k.draft])), k, k.draft, next);
    }
  }

  lemma StopKeepsInv(w: World)
    requires Inv(w)
    ensures Inv(Stop(w))
  {
  }

  lemma LoginProves(accounts: seq<Account>, username: string, password: Password)
    ensures var id := Login(accounts, username, password);
            id.Some? ==> id.value < |accounts| && accounts[id.value].username == username && accounts[id.value].password == password
  {
    FindNameFinds(accounts, username);
  }

  lemma RecoverKeepsInv(w: World, k: Work, fate: Fate, written: bool)
    requires Inv(w) && w.work == Some(k) && k.next == Recover
    ensures Inv(Advance(w, k, fate, written))
  {
    var d := k.draft;
    LoginProves(w.nana, d.username, d.password);
    var id := Login(w.nana, d.username, d.password);
    if fate == Answered && id.Some? {
      GoOnKeepsInv(w, k, d.(ncId := id), SaveUser);
    } else {
      StopKeepsInv(w);
    }
  }

  lemma CreateUserKeepsInv(w: World, k: Work, fate: Fate, written: bool)
    requires Inv(w) && w.work == Some(k) && k.next == CreateUser
    ensures Inv(Advance(w, k, fate, written))
  {
    var d := k.draft;
    var request := NanaCreate(d.username, d.password);
    var after := Send(w, request, fate);
    FindNameFinds(w.nana, d.username);
    assert Journaled(w.drafts, d.username, d.password);
    SendKeepsInv(w, request, fate);
    StopKeepsInv(after);
    if fate == Answered && FindName(w.nana, d.username).None? {
      GoOnKeepsInv(after, k, d.(ncId := Some(|w.nana|)), SaveUser);
    }
  }

  lemma CreateBotKeepsInv(w: World, k: Work, fate: Fate, written: bool)
    requires Inv(w) && w.work == Some(k) && k.next == CreateBot
    ensures Inv(Advance(w, k, fate, written))
  {
    var d := k.draft;
    var request := MiniCreate(d.username, d.password);
    var after := Send(w, request, fate);
    FindNameFinds(w.mini, d.username);
    assert Journaled(w.drafts, d.username, d.password);
    SendKeepsInv(w, request, fate);
    StopKeepsInv(after);
    var id := MiniMember(w.mini, d.username, d.password);
    if fate == Answered && id.Some? {
      GoOnKeepsInv(after, k, d.(mmId := id), SaveBot);
    }
  }

  lemma KeyKeepsInv(w: World, k: Work, fate: Fate, written: bool)
    requires Inv(w) && w.work == Some(k) && (k.next == IssueKey || k.next == IssueBotKey || k.next == ReadNanaKey)
    ensures Inv(Advance(w, k, fate, written))
  {
    var d := k.draft;
    StopKeepsInv(w);
    if fate == Answered {
      match k.next
      case ReadNanaKey => GoOnKeepsInv(w, k, d.(ncKey := Some(ReadKey)), SaveKey);
      case IssueKey => if d.ncId.Some? { GoOnKeepsInv(w, k, d.(ncKey := Some(KeyOf(d.ncId.value))), SaveKey); }
      case IssueBotKey => if d.mmId.Some? { GoOnKeepsInv(w, k, d.(mmKey := Some(KeyOf(d.mmId.value))), SaveBotKey); }
    }
  }

  lemma SaveStepKeepsInv(w: World, k: Work, fate: Fate, written: bool)
    requires Inv(w) && w.work == Some(k)
    requires k.next == SaveFirst || k.next == SaveUser || k.next == SaveKey || k.next == SaveBot || k.next == SaveBotKey
    ensures Inv(Advance(w, k, fate, written))
  {
    match k.next
    case SaveFirst => SavedKeepsInv(w, k, AfterFirst(k.bot, k.draft, k.had), written);
    case SaveUser => SavedKeepsInv(w, k, Prove, written);
    case SaveKey => SavedKeepsInv(w, k, AfterNana(k.draft, k.had), written);
    case SaveBot => SavedKeepsInv(w, k, IssueBotKey, written);
    case SaveBotKey => SavedKeepsInv(w, k, CheckKeys, written);
  }

  lemma KeysKeepInv(w: World, keys: map<string, Keys>)
    requires Inv(w)
    ensures Inv(w.(keys := keys))
  {
  }

  lemma ListKeepsInv(w: World, k: Work, fate: Fate, written: bool)
    requires Inv(w) && w.work == Some(k) && k.next == ListUsers
    ensures Inv(Advance(w, k, fate, written))
  {
    StopKeepsInv(w);
    GoOnKeepsInv(w, k, k.draft, CreateUser);
    GoOnKeepsInv(w, k, k.draft, Recover);
  }

  lemma QuietKeepsInv(w: World, k: Work, fate: Fate, written: bool)
    requires Inv(w) && w.work == Some(k)
    requires k.next == Prove || k.next == CheckKeys || k.next == Configure
    ensures Inv(Advance(w, k, fate, written))
  {
    StopKeepsInv(w);
    match k.next
    case Prove => GoOnKeepsInv(w, k, k.draft, IssueKey);
    case CheckKeys => GoOnKeepsInv(w, k, k.draft, Configure);
    case Configure =>
      var d := k.draft;
      var keys := Keys(if k.had.nc.Some? then k.had.nc else d.ncKey, if k.had.mm.Some? then k.had.mm else d.mmKey);
      KeysKeepInv(w, w.keys[k.bot := keys]);
      StopKeepsInv(w.(keys := w.keys[k.bot := keys]));
  }

  lemma AdvanceKeepsInv(w: World, k: Work, fate: Fate, written: bool)
    requires Inv(w) && w.work == Some(k)
    ensures Inv(Advance(w, k, fate, written))
  {
    match k.next
    case Recover => RecoverKeepsInv(w, k, fate, written);
    case CreateUser => CreateUserKeepsInv(w, k, fate, written);
    case CreateBot => CreateBotKeepsInv(w, k, fate, written);
    case IssueKey => KeyKeepsInv(w, k, fate, written);
    case IssueBotKey => KeyKeepsInv(w, k, fate, written);
    case ReadNanaKey => KeyKeepsInv(w, k, fate, written);
    case ListUsers => ListKeepsInv(w, k, fate, written);
    case Prove => QuietKeepsInv(w, k, fate, written);
    case CheckKeys => QuietKeepsInv(w, k, fate, written);
    case Configure => QuietKeepsInv(w, k, fate, written);
    case _ => SaveStepKeepsInv(w, k, fate, written);
  }

  lemma StartedKeepsInv(w: World, bot: string, username: string)
    requires Inv(w)
    ensures Inv(Started(w, bot, username))
  {
  }

  lemma OthersKeepInv(w: World, atNana: bool, account: Account)
    requires Inv(w)
    ensures Inv(Do(w, OthersCreate(atNana, account)))
  {
    var accounts := if atNana then w.nana else w.mini;
    if FindName(accounts, account.username).None? && account.password.Theirs? && !account.ours {
      NewAccountKeepsServer(accounts, w.drafts, account);
      ServersGrow(w, Do(w, OthersCreate(atNana, account)));
    }
  }

  lemma StepKeepsInv(w: World, step: Step)
    requires Inv(w)
    ensures Inv(Do(w, step))
  {
    match step
    case Begin(bot, username) => StartedKeepsInv(w, bot, username);
    case Proceed(fate, written) => if w.work.Some? { AdvanceKeepsInv(w, w.work.value, fate, written); }
    case PowerCut => StopKeepsInv(w);
    case Arrive(request) => if request in w.sent { ApplyKeepsInv(w, request); }
    case OthersCreate(atNana, account) => OthersKeepInv(w, atNana, account);
    case OthersConfigure(_, _) =>
  }

  // ---------------------------------------------------------------------------
  // Over any run
  // ---------------------------------------------------------------------------

  const START := World(map[], map[], 0, None, [], [], {})

  lemma {:induction false} RunKeepsInv(w: World, steps: seq<Step>)
    requires Inv(w)
    ensures Inv(Run(w, steps))
    decreases |steps|
  {
    if steps != [] {
      StepKeepsInv(w, steps[0]);
      RunKeepsInv(Do(w, steps[0]), steps[1..]);
    }
  }

  /** The setup's accounts and the drafts of a reachable state. */
  ghost predicate Safe(w: World) {
    // A name has at most one account, so it is created, and given its grant, at most once.
    && (forall i, j :: 0 <= i < j < |w.nana| ==> w.nana[i].username != w.nana[j].username)
    // Every account the setup created has the name and the password of a durable draft.
    && (forall i :: 0 <= i < |w.nana| && w.nana[i].ours ==> Journaled(w.drafts, w.nana[i].username, w.nana[i].password))
    && (forall i :: 0 <= i < |w.mini| && w.mini[i].ours ==> Journaled(w.drafts, w.mini[i].username, w.mini[i].password))
    && (forall bot :: bot in w.drafts ==> DraftIsSafe(w, w.drafts[bot]))
  }

  /** An account in a draft has its name and password, and is nobody else's; a key in it is for that account. */
  predicate DraftIsSafe(w: World, draft: Draft) {
    && draft.password.Ours? && Proved(w.nana, draft.ncId, draft) && Proved(w.mini, draft.mmId, draft)
    && (draft.ncKey.Some? ==>
          draft.ncKey.value == ReadKey || (draft.ncId.Some? && draft.ncKey.value == KeyOf(draft.ncId.value)))
    && (draft.mmKey.Some? ==> draft.mmId.Some? && draft.mmKey.value == KeyOf(draft.mmId.value))
  }

  /** After any number of runs of the setup, with requests and answers lost or late, failed saves, power cuts, and
      other people's accounts and settings. */
  lemma SetupIsSafe(steps: seq<Step>)
    ensures Safe(Run(START, steps))
  {
    RunKeepsInv(START, steps);
    var w := Run(START, steps);
    forall bot | bot in w.drafts ensures DraftIsSafe(w, w.drafts[bot]) { OkIsSafe(w, w.drafts[bot]); }
  }

  lemma OkIsSafe(w: World, draft: Draft)
    requires DraftOk(w, draft)
    ensures DraftIsSafe(w, draft)
  {
  }

  /** Accounts stay, and a durable draft keeps its credentials and whatever it has got. */
  ghost predicate Grows(w: World, v: World) {
    && w.nana <= v.nana && w.mini <= v.mini
    && forall bot :: bot in w.drafts ==> bot in v.drafts && Extends(v.drafts[bot], w.drafts[bot])
  }

  lemma ApplyGrows(w: World, request: Request)
    ensures Grows(w, Apply(w, request)) && Apply(w, request).drafts == w.drafts
  {
  }

  lemma SendGrows(w: World, request: Request, fate: Fate)
    ensures Grows(w, Send(w, request, fate)) && Send(w, request, fate).drafts == w.drafts
  {
    ApplyGrows(w.(sent := w.sent + {request}), request);
  }

  lemma SavedGrows(w: World, k: Work, next: Next, written: bool)
    requires WorkOk(w, k)
    ensures Grows(w, Saved(w, k, next, written))
  {
  }

  predicate Sends(next: Next) {
    next == CreateUser || next == CreateBot
  }

  predicate Saves(next: Next) {
    next == SaveFirst || next == SaveUser || next == SaveKey || next == SaveBot || next == SaveBotKey
  }

  lemma QuietGrows(w: World, k: Work, fate: Fate, written: bool)
    requires !Sends(k.next) && !Saves(k.next)
    ensures var v := Advance(w, k, fate, written); v.drafts == w.drafts && v.nana == w.nana && v.mini == w.mini
  {
  }

  lemma SavingGrows(w: World, k: Work, fate: Fate, written: bool)
    requires WorkOk(w, k) && Saves(k.next)
    ensures Grows(w, Advance(w, k, fate, written))
  {
    match k.next
    case SaveFirst => SavedGrows(w, k, AfterFirst(k.bot, k.draft, k.had), written);
    case SaveUser => SavedGrows(w, k, Prove, written);
    case SaveKey => SavedGrows(w, k, AfterNana(k.draft, k.had), written);
    case SaveBot => SavedGrows(w, k, IssueBotKey, written);
    case SaveBotKey => SavedGrows(w, k, CheckKeys, written);
  }

  lemma SendingGrows(w: World, k: Work, fate: Fate, written: bool)
    requires Sends(k.next)
    ensures Grows(w, Advance(w, k, fate, written))
  {
    SendGrows(w, NanaCreate(k.draft.username, k.draft.password), fate);
    SendGrows(w, MiniCreate(k.draft.username, k.draft.password), fate);
  }

  lemma AdvanceGrows(w: World, k: Work, fate: Fate, written: bool)
    requires WorkOk(w, k)
    ensures Grows(w, Advance(w, k, fate, written))
  {
    if Sends(k.next) {
      SendingGrows(w, k, fate, written);
    } else if Saves(k.next) {
      SavingGrows(w, k, fate, written);
    } else {
      QuietGrows(w, k, fate, written);
    }
  }

  lemma StepGrows(w: World, step: Step)
    requires Inv(w)
    ensures Grows(w, Do(w, step))
  {
    match step
    case Proceed(fate, written) => if w.work.Some? { AdvanceGrows(w, w.work.value, fate, written); }
    case Arrive(request) => ApplyGrows(w, request);
    case _ =>
  }

  lemma {:induction false} RunGrows(w: World, steps: seq<Step>)
    requires Inv(w)
    ensures Grows(w, Run(w, steps))
    decreases |steps|
  {
    if steps != [] {
      StepKeepsInv(w, steps[0]);
      StepGrows(w, steps[0]);
      RunGrows(Do(w, steps[0]), steps[1..]);
      var v, u := Do(w, steps[0]), Run(w, steps);
      forall bot | bot in w.drafts ensures bot in u.drafts && Extends(u.drafts[bot], w.drafts[bot]) {
        assert bot in v.drafts && Extends(v.drafts[bot], w.drafts[bot]);
      }
    }
  }

  const ANSWERED := Proceed(Answered, true)

  lemma StepListsName(w: World, k: Work, id: nat)
    requires w.work == Some(k) && k.next == ListUsers
    requires FindName(w.nana, k.draft.username) == Some(id) && id < |w.nana| && w.nana[id].bot
    ensures Do(w, ANSWERED) == w.(work := Some(k.(next := Recover)))
  {
  }

  lemma StepRecovers(w: World, k: Work, id: nat)
    requires w.work == Some(k) && k.next == Recover
    requires FindName(w.nana, k.draft.username) == Some(id) && id < |w.nana| && w.nana[id].password == k.draft.password
    ensures Do(w, ANSWERED) == w.(work := Some(k.(draft := k.draft.(ncId := Some(id)), next := SaveUser)))
  {
  }

  lemma StepSaves(w: World, k: Work)
    requires w.work == Some(k) && Saves(k.next)
    ensures exists next :: Do(w, ANSWERED) == w.(drafts := w.drafts[k.bot := k.draft], work := Some(k.(next := next)))
    ensures k.next == SaveFirst ==> Do(w, ANSWERED).work == Some(k.(next := AfterFirst(k.bot, k.draft, k.had)))
  {
    var next := match k.next
      case SaveFirst => AfterFirst(k.bot, k.draft, k.had)
      case SaveUser => Prove
      case SaveKey => AfterNana(k.draft, k.had)
      case SaveBot => IssueBotKey
      case _ => CheckKeys;
    assert Do(w, ANSWERED) == w.(drafts := w.drafts[k.bot := k.draft], work := Some(k.(next := next)));
  }

  lemma StepBegins(w: World, bot: string)
    requires w.work.None? && bot in w.drafts
    ensures Do(w, Begin(bot, w.drafts[bot].username)) == w.(work := Some(Work(bot, w.drafts[bot], KeysOf(w, bot), SaveFirst)))
  {
  }

  /** An account whose creation was not answered is found again: the next run adopts it without creating another. */
  lemma LostAccountIsFound(w: World, bot: string, id: nat)
    requires Inv(w) && w.work.None? && bot in w.drafts && bot != NEWS && KeysOf(w, bot) == NO_KEYS
    requires w.drafts[bot].ncId.None? && w.drafts[bot].ncKey.None?
    requires id < |w.nana| && w.nana[id].username == w.drafts[bot].username && w.nana[id].password == w.drafts[bot].password
    requires w.nana[id].bot
    ensures var v := Run(w, [Begin(bot, w.drafts[bot].username), ANSWERED, ANSWERED, ANSWERED, ANSWERED]);
            v.drafts == w.drafts[bot := w.drafts[bot].(ncId := Some(id))] && v.nana == w.nana && v.sent == w.sent
  {
    var draft := w.drafts[bot];
    NameIsThere(w.nana, draft.username, id);
    StepBegins(w, bot);
    var first := Work(bot, draft, NO_KEYS, SaveFirst);
    var begun := w.(work := Some(first));
    StepSaves(begun, first);
    assert w.drafts[bot := draft] == w.drafts;
    var listing := first.(next := ListUsers);
    StepListsName(w.(work := Some(listing)), listing, id);
    var recovering := first.(next := Recover);
    StepRecovers(w.(work := Some(recovering)), recovering, id);
    var saving := Work(bot, draft.(ncId := Some(id)), NO_KEYS, SaveUser);
    StepSaves(w.(work := Some(saving)), saving);
    RunFive(w, Begin(bot, draft.username), ANSWERED);
  }

  lemma NameIsThere(accounts: seq<Account>, username: string, id: nat)
    requires forall i, j :: 0 <= i < j < |accounts| ==> accounts[i].username != accounts[j].username
    requires id < |accounts| && accounts[id].username == username
    ensures FindName(accounts, username) == Some(id)
  {
    FindNameFinds(accounts, username);
  }

  lemma RunOne(w: World, step: Step, rest: seq<Step>)
    ensures Run(w, [step] + rest) == Run(Do(w, step), rest)
  {
    assert ([step] + rest)[1..] == rest;
  }

  lemma RunFive(w: World, first: Step, next: Step)
    ensures Run(w, [first, next, next, next, next]) == Do(Do(Do(Do(Do(w, first), next), next), next), next)
  {
    var a := Do(w, first);
    var b := Do(a, next);
    var c := Do(b, next);
    RunOne(w, first, [next, next, next, next]);
    RunOne(a, next, [next, next, next]);
    RunOne(b, next, [next, next]);
    RunOne(c, next, [next]);
    RunOne(Do(c, next), next, []);
    assert [first, next, next, next, next] == [first] + [next, next, next, next];
    assert [next, next, next, next] == [next] + [next, next, next] && [next, next, next] == [next] + [next, next];
    assert [next, next] == [next] + [next] && [next] == [next] + [];
  }
}
