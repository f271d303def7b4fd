// `connect` as the code has it (mastomini_bots/src/enrollment.rs): one bot's draft filled field by field and saved
// between remote calls. Whatever the servers and others do, what it does is a run of the steps of `Enrollment`.
module EnrollmentRun {
  import opened Options
  import opened Enrollment
  import opened EnrollmentSuccess

  lemma {:induction false} RunJoins(w: World, a: seq<Step>, b: seq<Step>)
    ensures Run(w, a + b) == Run(Run(w, a), b)
    decreases |a|
  {
    if a == [] {
      assert a + b == b;
    } else {
      assert (a + b)[1..] == a[1..] + b;
      RunJoins(Do(w, a[0]), a[1..], b);
    }
  }

  lemma RunThen(w: World, steps: seq<Step>, step: Step)
    ensures Run(w, steps + [step]) == Do(Run(w, steps), step)
  {
    RunJoins(w, steps, [step]);
    RunOne(Run(w, steps), step, []);
    assert [step] == [step] + [];
  }

  lemma RunStep(w: World, step: Step)
    ensures Run(w, [step]) == Do(w, step)
  {
    RunOne(w, step, []);
    assert [step] == [step] + [];
  }

  // ---------------------------------------------------------------------------
  // Steps that the workflow takes of itself
  // ---------------------------------------------------------------------------

  /** What others do: a late request arrives, or they create an account or configure a bot. */
  datatype Other = Arrives(request: Request) | Creates(atNana: bool, account: Account) | Configures(bot: string, keys: Keys)

  function StepOf(other: Other): Step {
    match other
    case Arrives(request) => Arrive(request)
    case Creates(atNana, account) => OthersCreate(atNana, account)
    case Configures(bot, keys) => OthersConfigure(bot, keys)
  }

  function StepsOf(others: seq<Other>): (steps: seq<Step>)
    ensures |steps| == |others| && forall i :: 0 <= i < |steps| ==> steps[i] == StepOf(others[i])
  {
    seq(|others|, i requires 0 <= i < |others| => StepOf(others[i]))
  }

  lemma {:induction false} OthersCompleteNothing(w: World, steps: seq<Step>)
    requires forall i :: 0 <= i < |steps| ==> !steps[i].Proceed?
    ensures !Completed(w, steps)
    decreases |steps|
  {
    if steps != [] { OthersCompleteNothing(Do(w, steps[0]), steps[1..]); }
  }

  lemma {:induction false} CompletedJoins(w: World, a: seq<Step>, b: seq<Step>)
    ensures Completed(w, a + b) <==> Completed(w, a) || Completed(Run(w, a), b)
    decreases |a|
  {
    if a == [] {
      assert a + b == b;
    } else {
      assert (a + b)[1..] == a[1..] + b;
      CompletedJoins(Do(w, a[0]), a[1..], b);
    }
  }

  lemma CompletedStep(w: World, step: Step)
    ensures Completed(w, [step]) <==> Completes(w, step)
  {
    assert [step][1..] == [];
  }

  /** One run after another. */
  lemma Joins(w: World, a: seq<Step>, b: seq<Step>)
    ensures Run(w, a + b) == Run(Run(w, a), b)
    ensures Completed(w, a + b) <==> Completed(w, a) || Completed(Run(w, a), b)
  {
    RunJoins(w, a, b);
    CompletedJoins(w, a, b);
  }

  /** Others' steps, and then one of the workflow's. */
  lemma AskThen(w: World, others: seq<Other>, step: Step)
    ensures var steps := StepsOf(others);
            && Run(w, steps + [step]) == Do(Run(w, steps), step)
            && (Completed(w, steps + [step]) <==> Completes(Run(w, steps), step))
  {
    var steps := StepsOf(others);
    RunThen(w, steps, step);
    OthersCompleteNothing(w, steps);
    CompletedJoins(w, steps, [step]);
    CompletedStep(Run(w, steps), step);
  }

  /** After the answer to a request for a key. */
  function WithKey(k: Work): Work {
    var d := k.draft;
    if k.next == IssueKey && d.ncId.Some? then k.(draft := d.(ncKey := Some(KeyOf(d.ncId.value))), next := SaveKey)
    else if k.next == IssueBotKey && d.mmId.Some? then k.(draft := d.(mmKey := Some(KeyOf(d.mmId.value))), next := SaveBotKey)
    else k.(draft := d.(ncKey := Some(ReadKey)), next := SaveKey)
  }

  predicate Both(keys: Keys) {
    keys.nc.Some? && keys.mm.Some?
  }

  class Setup {
    /** The durable journal and configuration of the board, and its source of fresh passwords. */
    var drafts: map<string, Draft>
    var keys: map<string, Keys>
    var tokens: nat
    /** The two servers, and the create requests on their way to them. */
    var nana: seq<Account>
    var mini: seq<Account>
    var sent: set<Request>

    ghost function At(work: Option<Work>): World
      reads this
    {
      World(drafts, keys, tokens, work, nana, mini, sent)
    }

    /** What becomes of each request and each save, in order, and what others do before it. */
    const fates: nat -> Fate
    const writes: nat -> bool
    const others: nat -> seq<Other>
    /** How many requests and saves there have been. */
    var moves: nat

    ghost function Move(i: nat): Step {
      Proceed(fates(i), writes(i))
    }

    /** The steps from one number of requests and saves to another. */
    ghost function Plan(from: nat, to: nat): seq<Step> {
      if to <= from then [] else Plan(from, to - 1) + (StepsOf(others(to - 1)) + [Move(to - 1)])
    }

    lemma PlanOne(n: nat)
      ensures Plan(n, n + 1) == StepsOf(others(n)) + [Move(n)]
    {
      assert Plan(n, n) == [];
    }

    lemma {:induction false} PlanJoins(a: nat, b: nat, c: nat)
      requires a <= b <= c
      ensures Plan(a, b) + Plan(b, c) == Plan(a, c)
      decreases c
    {
      if b < c {
        PlanJoins(a, b, c - 1);
        var last := StepsOf(others(c - 1)) + [Move(c - 1)];
        assert Plan(a, b) + (Plan(b, c - 1) + last) == (Plan(a, b) + Plan(b, c - 1)) + last;
      }
    }

    lemma PlansJoin(a: nat)
      ensures forall b: nat, c: nat :: a <= b <= c ==> Plan(a, b) + Plan(b, c) == Plan(a, c)
    {
      forall b: nat, c: nat | a <= b <= c ensures Plan(a, b) + Plan(b, c) == Plan(a, c) { PlanJoins(a, b, c); }
    }

    /** The request is answered, or the save written, with nothing in between. */
    ghost predicate GoesWell(i: nat) {
      fates(i) == Answered && writes(i) && others(i) == []
    }

    lemma {:induction false} GoodPlan(first: nat, end: nat)
      requires first <= end && forall i :: first <= i < end ==> GoesWell(i)
      ensures Plan(first, end) == Answers(end - first)
      decreases end
    {
      if first != end {
        assert GoesWell(end - 1);
        GoodPlan(first, end - 1);
        AnswersEnd(end - first - 1);
        assert StepsOf(others(end - 1)) + [Move(end - 1)] == [ANSWERED];
      }
    }

    /** A run that goes well from a state that can be set up, and has come to an end, has succeeded. */
    ghost predicate WellMeansConnected(w: World, bot: string, username: string, from: nat, to: nat) {
      var steps := [Begin(bot, username)] + Plan(from, to);
      Kinds(w) && CanSetUp(w, bot, username) && (forall i :: from <= i < to ==> GoesWell(i)) ==>
        Completed(w, steps) && Connected(w, Run(w, steps), bot, username, DraftFor(w, bot, username).password)
    }

    lemma GoodRunSucceeds(w: World, bot: string, username: string, from: nat, to: nat)
      requires from <= to && Inv(w) && Run(w, [Begin(bot, username)] + Plan(from, to)).work.None?
      ensures WellMeansConnected(w, bot, username, from, to)
    {
      if Kinds(w) && CanSetUp(w, bot, username) && forall i :: from <= i < to ==> GoesWell(i) {
        GoodPlan(from, to);
        EndedHasSucceeded(w, bot, username, to - from);
      }
    }

    /** What others do before the next request or save of the setup. */
    method Meanwhile(ghost work: Option<Work>) returns (ghost steps: seq<Step>)
      modifies this`keys, this`nana, this`mini
      ensures At(work) == Run(old(At(work)), steps) && steps == StepsOf(others(moves))
    {
      var todo := others(moves);
      steps := [];
      ghost var start, now := At(work), At(work);
      for i := 0 to |todo|
        invariant At(work) == now && now == Run(start, steps) && steps == StepsOf(todo)[..i]
      {
        match todo[i] {
          case Arrives(request) => Deliver(request, work);
          case Creates(atNana, account) => CreateOther(atNana, account, work);
          case Configures(bot, theirs) => keys := keys[bot := theirs];
        }
        ghost var step := StepOf(todo[i]);
        now := Do(now, step);
        RunThen(start, steps, step);
        steps := steps + [step];
      }
      assert StepsOf(todo)[..|todo|] == StepsOf(todo);
    }

    /** A create request that was on its way arrives at its server. */
    method Deliver(request: Request, ghost work: Option<Work>)
      modifies this`nana, this`mini
      ensures At(work) == Do(old(At(work)), Arrive(request))
    {
      if request in sent {
        if request.NanaCreate? {
          nana := NanaUsers(nana, request.username, request.password);
        } else if MiniMember(mini, request.username, request.password) == Some(|mini|) {
          mini := mini + [Account(request.username, request.password, true, true)];
        }
      }
    }

    method CreateOther(atNana: bool, account: Account, ghost work: Option<Work>)
      modifies this`nana, this`mini
      ensures At(work) == Do(old(At(work)), OthersCreate(atNana, account))
    {
      if account.password.Theirs? && !account.ours {
        if atNana {
          if FindName(nana, account.username).None? { nana := nana + [account]; }
        } else {
          if FindName(mini, account.username).None? { mini := mini + [account]; }
        }
      }
    }

    /** A call that changes nothing on the server; others go first. What it answers is then read there. */
    method Ask(ghost k: Work) returns (fate: Fate, ghost steps: seq<Step>)
      modifies this`keys, this`nana, this`mini, this`moves
      ensures At(Some(k)) == Run(old(At(Some(k))), steps)
      ensures moves == old(moves) + 1 && steps == StepsOf(others(old(moves))) && fate == fates(old(moves))
    {
      steps := Meanwhile(Some(k));
      fate := fates(moves);
      moves := moves + 1;
    }

    /** The draft put under its key, if the store takes it. */
    method Save(bot: string, draft: Draft, ghost k: Work, ghost next: Next) returns (ok: bool, ghost steps: seq<Step>)
      requires k.bot == bot && k.draft == draft && Saves(k.next)
      requires next == match k.next
                       case SaveFirst => AfterFirst(bot, draft, k.had)
                       case SaveUser => Prove
                       case SaveKey => AfterNana(draft, k.had)
                       case SaveBot => IssueBotKey
                       case _ => CheckKeys
      modifies this`keys, this`nana, this`mini, this`moves, this`drafts
      ensures At(if ok then Some(k.(next := next)) else None) == Run(old(At(Some(k))), steps)
      ensures Planned(old(At(Some(k))), steps, old(moves))
    {
      ghost var start, n := At(Some(k)), moves;
      var fate;
      fate, steps := Ask(k);
      AskThen(start, others(n), Move(n));
      PlanOne(n);
      steps := steps + [Move(n)];
      ok := writes(moves - 1);
      if ok { drafts := drafts[bot := draft]; }
    }

    /** The steps are those planned, and the setup has gone on, or ended with an error. */
    ghost predicate Planned(start: World, steps: seq<Step>, from: nat)
      reads this`moves
    {
      from <= moves && steps == Plan(from, moves) && !Completed(start, steps)
    }

    /** The users of NanaCoin: whether the name is there, as a bot. */
    method ListNames(draft: Draft, ghost k: Work) returns (ok: bool, found: bool, ghost steps: seq<Step>)
      requires k.draft == draft && k.next == ListUsers
      modifies this`keys, this`nana, this`mini, this`moves
      ensures At(if ok then Some(k.(next := if found then Recover else CreateUser)) else None) == Run(old(At(Some(k))), steps)
      ensures Planned(old(At(Some(k))), steps, old(moves))
    {
      ghost var start, n := At(Some(k)), moves;
      var fate;
      fate, steps := Ask(k);
      AskThen(start, others(n), Move(n));
      PlanOne(n);
      steps := steps + [Move(n)];
      if fate != Answered { return false, false, steps; }
      FindNameFinds(nana, draft.username);
      var at := FindName(nana, draft.username);
      if at.None? { return true, false, steps; }
      return nana[at.value].bot, true, steps;
    }

    /** A login proves that an account found is this setup's, and gives its id. */
    method RecoverId(draft: Draft, ghost k: Work) returns (id: Option<nat>, ghost steps: seq<Step>)
      requires k.draft == draft && k.next == Recover
      modifies this`keys, this`nana, this`mini, this`moves
      ensures At(if id.Some? then Some(k.(draft := draft.(ncId := id), next := SaveUser)) else None) == Run(old(At(Some(k))), steps)
      ensures Planned(old(At(Some(k))), steps, old(moves))
    {
      ghost var start, n := At(Some(k)), moves;
      var fate;
      fate, steps := Ask(k);
      AskThen(start, others(n), Move(n));
      PlanOne(n);
      steps := steps + [Move(n)];
      id := if fate == Answered then Login(nana, draft.username, draft.password) else None;
    }

    /** A request to create the account: it may be refused, or applied without an answer. */
    method CreateNanaUser(draft: Draft, ghost k: Work) returns (id: Option<nat>, ghost steps: seq<Step>)
      requires k.draft == draft && k.next == CreateUser
      modifies this`keys, this`nana, this`mini, this`sent, this`moves
      ensures At(if id.Some? then Some(k.(draft := draft.(ncId := id), next := SaveUser)) else None) == Run(old(At(Some(k))), steps)
      ensures Planned(old(At(Some(k))), steps, old(moves))
    {
      ghost var start, n := At(Some(k)), moves;
      var fate;
      fate, steps := Ask(k);
      AskThen(start, others(n), Move(n));
      PlanOne(n);
      steps := steps + [Move(n)];
      var taken, next := FindName(nana, draft.username).Some?, |nana|;
      sent := sent + {NanaCreate(draft.username, draft.password)};
      if fate == Unanswered || fate == Answered { nana := NanaUsers(nana, draft.username, draft.password); }
      id := if fate == Answered && !taken then Some(next) else None;
    }

    method CreateMiniBot(draft: Draft, ghost k: Work) returns (id: Option<nat>, ghost steps: seq<Step>)
      requires k.draft == draft && k.next == CreateBot
      modifies this`keys, this`nana, this`mini, this`sent, this`moves
      ensures At(if id.Some? then Some(k.(draft := draft.(mmId := id), next := SaveBot)) else None) == Run(old(At(Some(k))), steps)
      ensures Planned(old(At(Some(k))), steps, old(moves))
    {
      ghost var start, n := At(Some(k)), moves;
      var fate;
      fate, steps := Ask(k);
      AskThen(start, others(n), Move(n));
      PlanOne(n);
      steps := steps + [Move(n)];
      var member := MiniMember(mini, draft.username, draft.password);
      sent := sent + {MiniCreate(draft.username, draft.password)};
      if (fate == Unanswered || fate == Answered) && member == Some(|mini|) {
        mini := mini + [Account(draft.username, draft.password, true, true)];
      }
      id := if fate == Answered then member else None;
    }

    /** The account must still be the one in the draft, and a bot. */
    method ProveUser(draft: Draft, ghost k: Work) returns (ok: bool, ghost steps: seq<Step>)
      requires k.draft == draft && k.next == Prove
      modifies this`keys, this`nana, this`mini, this`moves
      ensures At(if ok then Some(k.(next := IssueKey)) else None) == Run(old(At(Some(k))), steps)
      ensures Planned(old(At(Some(k))), steps, old(moves))
    {
      ghost var start, n := At(Some(k)), moves;
      var fate;
      fate, steps := Ask(k);
      AskThen(start, others(n), Move(n));
      PlanOne(n);
      steps := steps + [Move(n)];
      LoginProves(nana, draft.username, draft.password);
      var id := Login(nana, draft.username, draft.password);
      ok := fate == Answered && id.Some? && id == draft.ncId && nana[id.value].bot;
    }

    /** A key for an account, or Nana's own to read with. */
    method GetKey(account: Option<nat>, ghost k: Work) returns (key: Option<Key>, ghost steps: seq<Step>)
      requires match k.next
               case ReadNanaKey => account.None?
               case IssueKey => account.Some? && account == k.draft.ncId
               case IssueBotKey => account.Some? && account == k.draft.mmId
               case _ => false
      modifies this`keys, this`nana, this`mini, this`moves
      ensures At(if key.Some? then Some(WithKey(k)) else None) == Run(old(At(Some(k))), steps)
      ensures key.Some? ==> key.value == if account.Some? then KeyOf(account.value) else ReadKey
      ensures Planned(old(At(Some(k))), steps, old(moves))
    {
      ghost var start, n := At(Some(k)), moves;
      var fate;
      fate, steps := Ask(k);
      AskThen(start, others(n), Move(n));
      PlanOne(n);
      steps := steps + [Move(n)];
      key := if fate == Answered then Some(if account.Some? then KeyOf(account.value) else ReadKey) else None;
    }

    /** The account on NanaCoin: found again or created, and noted in the draft. */
    method FindOrCreate(bot: string, before: Draft, ghost k: Work) returns (draft: Option<Draft>, ghost steps: seq<Step>)
      requires k.bot == bot && k.draft == before && k.next == ListUsers && before.ncId.None?
      modifies this`keys, this`nana, this`mini, this`sent, this`drafts, this`moves
      ensures At(if draft.Some? then Some(k.(draft := draft.value, next := Prove)) else None) == Run(old(At(Some(k))), steps)
      ensures draft.Some? ==> draft.value == before.(ncId := draft.value.ncId) && draft.value.ncId.Some?
      ensures Planned(old(At(Some(k))), steps, old(moves))
    {
      PlansJoin(moves);
      ghost var start := At(Some(k));
      var ok, found, id;
      ghost var more;
      ok, found, steps := ListNames(before, k);
      if !ok { return None, steps; }
      if found {
        id, more := RecoverId(before, k.(next := Recover));
      } else {
        id, more := CreateNanaUser(before, k.(next := CreateUser));
      }
      Joins(start, steps, more);
      steps := steps + more;
      if id.None? { return None, steps; }
      var noted := before.(ncId := id);
      ok, more := Save(bot, noted, k.(draft := noted, next := SaveUser), Prove);
      Joins(start, steps, more);
      return if ok then Some(noted) else None, steps + more;
    }

    /** The key for NanaCoin: Nana's reading key, or that of the bot's own account. */
    method ConnectNana(bot: string, before: Draft, had: Keys) returns (draft: Option<Draft>, ghost steps: seq<Step>)
      modifies this`keys, this`nana, this`mini, this`sent, this`drafts, this`moves
      ensures At(if draft.Some? then Some(Work(bot, draft.value, had, AfterNana(draft.value, had))) else None)
           == Run(old(At(Some(Work(bot, before, had, AfterFirst(bot, before, had))))), steps)
      ensures draft.Some? ==> draft.value.ncKey.Some? || had.nc.Some?
      ensures Planned(old(At(Some(Work(bot, before, had, AfterFirst(bot, before, had))))), steps, old(moves))
    {
      PlansJoin(moves);
      if before.ncKey.Some? || had.nc.Some? { return Some(before), []; }
      ghost var k := Work(bot, before, had, AfterFirst(bot, before, had));
      ghost var start := At(Some(k));
      var now := before;
      steps := [];
      ghost var more;
      if bot != NEWS {
        if now.ncId.None? {
          var noted;
          noted, more := FindOrCreate(bot, now, k);
          steps := more;
          if noted.None? { return None, steps; }
          now := noted.value;
          k := k.(draft := now, next := Prove);
        }
        var proved;
        proved, more := ProveUser(now, k);
        Joins(start, steps, more);
        steps := steps + more;
        if !proved { return None, steps; }
        k := k.(next := IssueKey);
      }
      draft, more := NanaKey(bot, now, k);
      Joins(start, steps, more);
      steps := steps + more;
    }

    method NanaKey(bot: string, before: Draft, ghost k: Work) returns (draft: Option<Draft>, ghost steps: seq<Step>)
      requires k.bot == bot && k.draft == before
      requires if bot == NEWS then k.next == ReadNanaKey else k.next == IssueKey && before.ncId.Some?
      modifies this`keys, this`nana, this`mini, this`drafts, this`moves
      ensures At(if draft.Some? then Some(Work(bot, draft.value, k.had, AfterNana(draft.value, k.had))) else None)
           == Run(old(At(Some(k))), steps)
      ensures draft.Some? ==> draft.value.ncKey.Some?
      ensures Planned(old(At(Some(k))), steps, old(moves))
    {
      PlansJoin(moves);
      ghost var start := At(Some(k));
      ghost var more;
      var key, ok;
      key, steps := GetKey(if bot == NEWS then None else before.ncId, k);
      if key.None? { return None, steps; }
      var keyed := before.(ncKey := key);
      ok, more := Save(bot, keyed, WithKey(k), AfterNana(keyed, k.had));
      Joins(start, steps, more);
      return if ok then Some(keyed) else None, steps + more;
    }

    /** The account and the key on Mastomini, which returns an account that the password proves. */
    method ConnectMini(bot: string, before: Draft, had: Keys) returns (draft: Option<Draft>, ghost steps: seq<Step>)
      modifies this`keys, this`nana, this`mini, this`sent, this`drafts, this`moves
      ensures At(if draft.Some? then Some(Work(bot, draft.value, had, CheckKeys)) else None)
           == Run(old(At(Some(Work(bot, before, had, AfterNana(before, had))))), steps)
      ensures draft.Some? ==> draft.value.ncKey == before.ncKey && (draft.value.mmKey.Some? || had.mm.Some?)
      ensures Planned(old(At(Some(Work(bot, before, had, AfterNana(before, had))))), steps, old(moves))
    {
      PlansJoin(moves);
      if before.mmKey.Some? || had.mm.Some? { return Some(before), []; }
      ghost var k := Work(bot, before, had, AfterNana(before, had));
      ghost var start := At(Some(k));
      ghost var more;
      var now, ok := before, true;
      steps := [];
      if now.mmId.None? {
        var id;
        id, steps := CreateMiniBot(now, k);
        if id.None? { return None, steps; }
        now := now.(mmId := id);
        ok, more := Save(bot, now, k.(draft := now, next := SaveBot), IssueBotKey);
        Joins(start, steps, more);
        steps := steps + more;
        if !ok { return None, steps; }
        k := k.(draft := now, next := IssueBotKey);
      }
      draft, more := MiniKey(bot, now, k);
      Joins(start, steps, more);
      steps := steps + more;
    }

    method MiniKey(bot: string, before: Draft, ghost k: Work) returns (draft: Option<Draft>, ghost steps: seq<Step>)
      requires k.bot == bot && k.draft == before && k.next == IssueBotKey && before.mmId.Some?
      modifies this`keys, this`nana, this`mini, this`drafts, this`moves
      ensures At(if draft.Some? then Some(Work(bot, draft.value, k.had, CheckKeys)) else None) == Run(old(At(Some(k))), steps)
      ensures draft.Some? ==> draft.value.ncKey == before.ncKey && draft.value.mmKey.Some?
      ensures Planned(old(At(Some(k))), steps, old(moves))
    {
      PlansJoin(moves);
      ghost var start := At(Some(k));
      ghost var more;
      var key, ok;
      key, steps := GetKey(before.mmId, k);
      if key.None? { return None, steps; }
      var keyed := before.(mmKey := key);
      ok, more := Save(bot, keyed, WithKey(k), CheckKeys);
      Joins(start, steps, more);
      return if ok then Some(keyed) else None, steps + more;
    }

    /** Both keys are tried, each against its server. */
    method TryKeys(ghost k: Work) returns (ok: bool, ghost steps: seq<Step>)
      requires k.next == CheckKeys
      modifies this`keys, this`nana, this`mini, this`moves
      ensures At(if ok then Some(k.(next := Configure)) else None) == Run(old(At(Some(k))), steps)
      ensures Planned(old(At(Some(k))), steps, old(moves))
    {
      ghost var start, n := At(Some(k)), moves;
      var fate;
      fate, steps := Ask(k);
      AskThen(start, others(n), Move(n));
      PlanOne(n);
      steps := steps + [Move(n)];
      ok := fate == Answered;
    }

    /** The bot is configured if one of its keys is new. */
    method ConfigureBot(bot: string, draft: Draft, had: Keys) returns (ok: bool, ghost steps: seq<Step>)
      modifies this`keys, this`nana, this`mini, this`moves
      ensures At(None) == Run(old(At(Some(Work(bot, draft, had, Configure)))), steps)
      ensures ok && !Both(had) ==>
                bot in keys && keys[bot] == Keys(if had.nc.Some? then had.nc else draft.ncKey, if had.mm.Some? then had.mm else draft.mmKey)
      ensures old(moves) <= moves && steps == Plan(old(moves), moves)
      ensures ok <==> Completed(old(At(Some(Work(bot, draft, had, Configure)))), steps)
    {
      ghost var k := Work(bot, draft, had, Configure);
      ghost var start, n := At(Some(k)), moves;
      var fate;
      fate, steps := Ask(k);
      AskThen(start, others(n), Move(n));
      PlanOne(n);
      steps := steps + [Move(n)];
      if Both(had) { return true, steps; }
      ok := writes(moves - 1);
      if ok {
        keys := keys[bot := Keys(if had.nc.Some? then had.nc else draft.ncKey, if had.mm.Some? then had.mm else draft.mmKey)];
      }
    }

    method Finish(bot: string, draft: Draft, had: Keys) returns (ok: bool, ghost steps: seq<Step>)
      modifies this`keys, this`nana, this`mini, this`moves
      ensures At(None) == Run(old(At(Some(Work(bot, draft, had, CheckKeys)))), steps)
      ensures ok && !Both(had) ==>
                bot in keys && keys[bot] == Keys(if had.nc.Some? then had.nc else draft.ncKey, if had.mm.Some? then had.mm else draft.mmKey)
      ensures old(moves) <= moves && steps == Plan(old(moves), moves)
      ensures ok <==> Completed(old(At(Some(Work(bot, draft, had, CheckKeys)))), steps)
    {
      PlansJoin(moves);
      ghost var start := At(Some(Work(bot, draft, had, CheckKeys)));
      ghost var more;
      ok, steps := TryKeys(Work(bot, draft, had, CheckKeys));
      if !ok { return; }
      ok, more := ConfigureBot(bot, draft, had);
      Joins(start, steps, more);
      steps := steps + more;
    }

    /** Connects one bot, as far as the servers and the store let it. */
    method Connect(bot: string, username: string) returns (ok: bool, ghost steps: seq<Step>)
      requires Inv(At(None))
      modifies this
      ensures At(None) == Run(old(At(None)), steps) && Inv(At(None))
      ensures ok ==> (old(bot in keys && Both(keys[bot]))) || (bot in keys && Both(keys[bot]))
      ensures old(moves) <= moves && steps == [Begin(bot, username)] + Plan(old(moves), moves)
      ensures ok <==> Completed(old(At(None)), steps)
      ensures WellMeansConnected(old(At(None)), bot, username, old(moves), moves)
    {
      ghost var start := At(None);
      RunStep(start, Begin(bot, username));
      steps := [Begin(bot, username)];
      if bot in drafts && drafts[bot].username != username {
        RunKeepsInv(start, steps);
        assert steps == [Begin(bot, username)] + Plan(moves, moves);
        GoodRunSucceeds(start, bot, username, moves, moves);
        return false, steps;
      }
      var had := if bot in keys then keys[bot] else NO_KEYS;
      var draft;
      if bot in drafts {
        draft := drafts[bot];
      } else {
        draft := Draft(username, Ours(tokens), None, None, None, None);
        tokens := tokens + 1;
      }
      ghost var more;
      ok, more := ConnectFrom(bot, draft, had);
      Joins(start, steps, more);
      steps := steps + more;
      RunKeepsInv(start, steps);
      GoodRunSucceeds(start, bot, username, old(moves), moves);
    }

    method ConnectFrom(bot: string, draft: Draft, had: Keys) returns (ok: bool, ghost steps: seq<Step>)
      modifies this`keys, this`nana, this`mini, this`sent, this`drafts, this`moves
      ensures At(None) == Run(old(At(Some(Work(bot, draft, had, SaveFirst)))), steps)
      ensures ok ==> Both(had) || (bot in keys && Both(keys[bot]))
      ensures old(moves) <= moves && steps == Plan(old(moves), moves)
      ensures ok <==> Completed(old(At(Some(Work(bot, draft, had, SaveFirst)))), steps)
    {
      PlansJoin(moves);
      ghost var start := At(Some(Work(bot, draft, had, SaveFirst)));
      ghost var more;
      ok, steps := Save(bot, draft, Work(bot, draft, had, SaveFirst), AfterFirst(bot, draft, had));
      if !ok { return; }
      var withNana, withMini;
      withNana, more := ConnectNana(bot, draft, had);
      Joins(start, steps, more);
      steps := steps + more;
      if withNana.None? { return false, steps; }
      withMini, more := ConnectMini(bot, withNana.value, had);
      Joins(start, steps, more);
      steps := steps + more;
      if withMini.None? { return false, steps; }
      ok, more := Finish(bot, withMini.value, had);
      Joins(start, steps, more);
      steps := steps + more;
    }
  }
}
