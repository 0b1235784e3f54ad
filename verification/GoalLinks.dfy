/**
 The two pointers between goals and accounts, `goals.linked_account_id` and
 `accounts.goal_id`, and the transactions that move them (`goal_mutations.go`,
 `account_conversion.go` and the account deletion of `ledger.go`).
 */
module GoalLinks {
  import opened Wrappers
  import opened Sequences

  datatype Mode = Balance | Positions

  datatype Account = Account(user: Id, goal: Option<Id>, archived: bool, liability: bool, category: Id, mode: Mode)

  datatype Category = Category(user: Id, archived: bool, asset: bool, investible: bool)

  datatype Goal = Goal(user: Id, linked: Option<Id>)

  datatype RequestKey = RequestKey(operation: string, result: Option<Id>)

  datatype Tables = Tables(
    accounts: map<Id, Account>, goals: map<Id, Goal>, categories: map<Id, Category>,
    keys: map<(Id, string), RequestKey>, conversions: map<Id, Id>)

  datatype Failure = NotFound | Invalid | Conflict

  datatype Outcome = Done | Created(id: Id) | Replayed(id: Id) | Failed(failure: Failure)

  // ---- statements -------------------------------------------------------------------------------------------------

  predicate OwnGoal(s: Tables, user: Id, goal: Id) {
    goal in s.goals && s.goals[goal].user == user
  }

  predicate OwnAccount(s: Tables, user: Id, account: Id) {
    account in s.accounts && s.accounts[account].user == user
  }

  /** `validateLinkedAccount`; a new goal excludes no goal from the search. */
  function LinkRefused(s: Tables, user: Id, account: Option<Id>, goal: Option<Id>): Option<Failure> {
    if account.None? then None
    else if !OwnAccount(s, user, account.value) || s.accounts[account.value].category !in s.categories
            || s.categories[s.accounts[account.value].category].user != user then Some(NotFound)
    else
      var row := s.accounts[account.value];
      var category := s.categories[row.category];
      if row.archived || row.liability || category.archived || !category.asset then Some(Invalid)
      else if exists g | g in s.goals :: s.goals[g].user == user && s.goals[g].linked == account && goal != Some(g)
        then Some(Conflict)
      else None
  }

  function Unlinked(accounts: map<Id, Account>, user: Id, goal: Id): map<Id, Account> {
    map a | a in accounts ::
      if accounts[a].user == user && accounts[a].goal == Some(goal) then accounts[a].(goal := None) else accounts[a]
  }

  function Linked(accounts: map<Id, Account>, user: Id, account: Option<Id>, goal: Id): map<Id, Account> {
    if account.Some? && account.value in accounts && accounts[account.value].user == user
    then accounts[account.value := accounts[account.value].(goal := Some(goal))] else accounts
  }

  // ---- transactions -----------------------------------------------------------------------------------------------

  /** `CreateGoal`; `usable` says that the currency is enabled. */
  function GoalCreated(
    s: Tables, user: Id, goal: Id, linked: Option<Id>, key: Option<string>, usable: bool): (Tables, Outcome)
  {
    if key.Some? && (user, key.value) in s.keys then
      var used := s.keys[(user, key.value)];
      if used.operation == "create-goal" && used.result.Some? then (s, Replayed(used.result.value))
        else (s, Failed(Conflict))
    else if !usable then (s, Failed(Invalid))
    else
      var refused := LinkRefused(s, user, linked, None);
      if refused.Some? then (s, Failed(refused.value))
      else if goal in s.goals then (s, Failed(Conflict))
      else
        (s.(goals := s.goals[goal := Goal(user, linked)],
            accounts := Linked(s.accounts, user, linked, goal),
            keys := if key.Some? then s.keys[(user, key.value) := RequestKey("create-goal", Some(goal))] else s.keys),
         Created(goal))
  }

  /** `UpdateGoal`. */
  function GoalUpdated(s: Tables, user: Id, goal: Id, linked: Option<Id>, usable: bool): (Tables, Outcome) {
    if !OwnGoal(s, user, goal) then (s, Failed(NotFound))
    else if !usable then (s, Failed(Invalid))
    else
      var refused := LinkRefused(s, user, linked, Some(goal));
      if refused.Some? then (s, Failed(refused.value))
      else
        (s.(goals := s.goals[goal := s.goals[goal].(linked := linked)],
            accounts := Linked(Unlinked(s.accounts, user, goal), user, linked, goal)),
         Done)
  }

  /** `DeleteGoal`. */
  function GoalDeleted(s: Tables, user: Id, goal: Id): (Tables, Outcome) {
    if !OwnGoal(s, user, goal) then (s, Failed(NotFound))
    else (s.(accounts := Unlinked(s.accounts, user, goal), goals := s.goals - {goal}), Done)
  }

  /**
   `Execute` of a conversion that is not a replay; `prepared` says that its date, name,
   cash, holdings and difference passed their checks.
   */
  function AccountConverted(s: Tables, user: Id, source: Id, target: Id, prepared: bool): (Tables, Outcome) {
    if !OwnAccount(s, user, source) then (s, Failed(NotFound))
    else if source in s.conversions then (s, Failed(Conflict))
    else
      var row := s.accounts[source];
      if row.category !in s.categories || s.categories[row.category].user != user
         || row.mode != Balance || row.liability || row.archived then (s, Failed(NotFound))
      else if s.categories[row.category].archived || !s.categories[row.category].investible || !prepared
        then (s, Failed(Invalid))
      else if target in s.accounts then (s, Failed(Conflict))
      else
        var added := Account(user, row.goal, false, false, row.category, Positions);
        (s.(accounts := s.accounts[target := added][source := row.(goal := None, archived := true)],
            goals := Relinked(s.goals, user, row.goal, target),
            conversions := s.conversions[source := target]),
         Created(target))
  }

  function Relinked(goals: map<Id, Goal>, user: Id, goal: Option<Id>, account: Id): map<Id, Goal> {
    if goal.Some? && goal.value in goals && goals[goal.value].user == user
    then goals[goal.value := goals[goal.value].(linked := Some(account))] else goals
  }

  /** `CreateAccount`, as far as links go. */
  function AccountCreated(
    s: Tables, user: Id, account: Id, category: Id, liability: bool, mode: Mode): (Tables, Outcome)
  {
    if account in s.accounts then (s, Failed(Conflict))
    else (s.(accounts := s.accounts[account := Account(user, None, false, liability, category, mode)]),
      Created(account))
  }

  /** `SetAccountArchived`: a converted source cannot be restored. */
  function ArchiveSet(s: Tables, user: Id, account: Id, archived: bool): (Tables, Outcome) {
    if !OwnAccount(s, user, account) then (s, Failed(NotFound))
    else if !archived && account in s.conversions then (s, Failed(Conflict))
    else (s.(accounts := s.accounts[account := s.accounts[account].(archived := archived)]), Done)
  }

  /** `DeleteAccount` of an account without linked activity. */
  function AccountDeleted(s: Tables, user: Id, account: Id): (Tables, Outcome) {
    if !OwnAccount(s, user, account) then (s, Failed(NotFound))
    else if !s.accounts[account].archived then (s, Failed(Invalid))
    else
      (s.(goals := map g | g in s.goals ::
            if s.goals[g].user == user && s.goals[g].linked == Some(account) then s.goals[g].(linked := None)
              else s.goals[g],
          conversions := map c | c in s.conversions && c != account && s.conversions[c] != account :: s.conversions[c],
          accounts := s.accounts - {account}),
       Done)
  }

  datatype Event =
    | CreateGoal(user: Id, goal: Id, linked: Option<Id>, key: Option<string>, usable: bool)
    | UpdateGoal(user: Id, goal: Id, linked: Option<Id>, usable: bool)
    | DeleteGoal(user: Id, goal: Id)
    | Convert(user: Id, source: Id, target: Id, prepared: bool)
    | CreateAccount(user: Id, account: Id, category: Id, liability: bool, mode: Mode)
    | SetArchived(user: Id, account: Id, archived: bool)
    | DeleteAccount(user: Id, account: Id)
    | SetCategory(id: Id, row: Category)

  function Step(s: Tables, e: Event): (Tables, Outcome) {
    match e
    case CreateGoal(user, goal, linked, key, usable) => GoalCreated(s, user, goal, linked, key, usable)
    case UpdateGoal(user, goal, linked, usable) => GoalUpdated(s, user, goal, linked, usable)
    case DeleteGoal(user, goal) => GoalDeleted(s, user, goal)
    case Convert(user, source, target, prepared) => AccountConverted(s, user, source, target, prepared)
    case CreateAccount(user, account, category, liability, mode) =>
      AccountCreated(s, user, account, category, liability, mode)
    case SetArchived(user, account, archived) => ArchiveSet(s, user, account, archived)
    case DeleteAccount(user, account) => AccountDeleted(s, user, account)
    case SetCategory(id, row) => (s.(categories := s.categories[id := row]), Done)
  }

  // ---- the pointers are inverse -----------------------------------------------------------------------------------

  /** A goal links an account exactly when the account serves the goal, and both are the same user's. */
  ghost predicate Inverse(goals: map<Id, Goal>, accounts: map<Id, Account>) {
    && (forall g | g in goals && goals[g].linked.Some? :: LinksBack(goals, accounts, g))
    && (forall a | a in accounts && accounts[a].goal.Some? :: ServesBack(goals, accounts, a))
  }

  ghost predicate LinksBack(goals: map<Id, Goal>, accounts: map<Id, Account>, g: Id)
    requires g in goals && goals[g].linked.Some?
  {
    var a := goals[g].linked.value;
    a in accounts && accounts[a].goal == Some(g) && accounts[a].user == goals[g].user
  }

  ghost predicate ServesBack(goals: map<Id, Goal>, accounts: map<Id, Account>, a: Id)
    requires a in accounts && accounts[a].goal.Some?
  {
    var g := accounts[a].goal.value;
    g in goals && goals[g].linked == Some(a) && goals[g].user == accounts[a].user
  }

  /** So no account serves two goals, and no goal is linked to two accounts. */
  lemma LinksAreOneToOne(goals: map<Id, Goal>, accounts: map<Id, Account>, g: Id, h: Id, a: Id, b: Id)
    requires Inverse(goals, accounts) && g in goals && h in goals && a in accounts && b in accounts
    ensures goals[g].linked.Some? && goals[g].linked == goals[h].linked ==> g == h
    ensures accounts[a].goal.Some? && accounts[a].goal == accounts[b].goal ==> a == b
    ensures goals[g].linked == Some(a) <==> accounts[a].goal == Some(g)
  {
    if goals[g].linked.Some? { assert LinksBack(goals, accounts, g); }
    if goals[h].linked.Some? { assert LinksBack(goals, accounts, h); }
    if accounts[a].goal.Some? { assert ServesBack(goals, accounts, a); }
    if accounts[b].goal.Some? { assert ServesBack(goals, accounts, b); }
  }

  lemma UnlinkedInverse(goals: map<Id, Goal>, accounts: map<Id, Account>, user: Id, goal: Id)
    requires Inverse(goals, accounts) && goal in goals && goals[goal].user == user
    ensures Inverse(goals[goal := goals[goal].(linked := None)], Unlinked(accounts, user, goal))
    ensures Inverse(goals - {goal}, Unlinked(accounts, user, goal))
  {
    forall g | g in goals && goals[g].linked.Some? ensures LinksBack(goals, accounts, g) {}
    forall a | a in accounts && accounts[a].goal.Some? ensures ServesBack(goals, accounts, a) {}
  }

  /** Linking an account that no goal is linked to. */
  lemma LinkedInverse(goals: map<Id, Goal>, accounts: map<Id, Account>, user: Id, account: Id, goal: Id)
    requires Inverse(goals, accounts) && account in accounts && accounts[account].user == user
             && accounts[account].goal.None?
    requires goal in goals ==> goals[goal].linked.None?
    ensures Inverse(goals[goal := Goal(user, Some(account))], Linked(accounts, user, Some(account), goal))
  {
    forall g | g in goals && goals[g].linked.Some? ensures LinksBack(goals, accounts, g) {}
    forall a | a in accounts && accounts[a].goal.Some? ensures ServesBack(goals, accounts, a) {}
  }

  lemma CreateInverse(s: Tables, user: Id, goal: Id, linked: Option<Id>, key: Option<string>, usable: bool)
    requires Inverse(s.goals, s.accounts)
    ensures var t := GoalCreated(s, user, goal, linked, key, usable).0; Inverse(t.goals, t.accounts)
  {
    var (t, outcome) := GoalCreated(s, user, goal, linked, key, usable);
    if outcome.Created? {
      if linked.Some? {
        AcceptedAccountIsFree(s, user, linked.value, None);
        LinkedInverse(s.goals, s.accounts, user, linked.value, goal);
      } else {
        forall g | g in s.goals && s.goals[g].linked.Some? ensures LinksBack(s.goals, s.accounts, g) {}
        forall a | a in s.accounts && s.accounts[a].goal.Some? ensures ServesBack(s.goals, s.accounts, a) {}
      }
    }
  }

  /** The check looks at one pointer only; because the pointers are inverse it settles the other. */
  lemma AcceptedAccountIsFree(s: Tables, user: Id, account: Id, goal: Option<Id>)
    requires Inverse(s.goals, s.accounts) && LinkRefused(s, user, Some(account), goal).None?
    ensures OwnAccount(s, user, account) && (s.accounts[account].goal.None? || s.accounts[account].goal == goal)
  {
    if s.accounts[account].goal.Some? { assert ServesBack(s.goals, s.accounts, account); }
  }

  lemma UpdateInverse(s: Tables, user: Id, goal: Id, linked: Option<Id>, usable: bool)
    requires Inverse(s.goals, s.accounts)
    ensures var t := GoalUpdated(s, user, goal, linked, usable).0; Inverse(t.goals, t.accounts)
  {
    var (t, outcome) := GoalUpdated(s, user, goal, linked, usable);
    if outcome.Done? {
      UnlinkedInverse(s.goals, s.accounts, user, goal);
      var goals, accounts := s.goals[goal := s.goals[goal].(linked := None)], Unlinked(s.accounts, user, goal);
      if linked.Some? {
        AcceptedAccountIsFree(s, user, linked.value, Some(goal));
        LinkedInverse(goals, accounts, user, linked.value, goal);
        assert goals[goal := Goal(user, linked)] == t.goals;
      } else {
        assert goals == t.goals;
      }
    }
  }

  lemma ConvertInverse(s: Tables, user: Id, source: Id, target: Id, prepared: bool)
    requires Inverse(s.goals, s.accounts)
    ensures var t := AccountConverted(s, user, source, target, prepared).0; Inverse(t.goals, t.accounts)
  {
    var (t, outcome) := AccountConverted(s, user, source, target, prepared);
    if outcome.Created? {
      forall g | g in s.goals && s.goals[g].linked.Some? ensures LinksBack(s.goals, s.accounts, g) {}
      forall a | a in s.accounts && s.accounts[a].goal.Some? ensures ServesBack(s.goals, s.accounts, a) {}
    }
  }

  lemma OtherInverse(s: Tables, e: Event)
    requires Inverse(s.goals, s.accounts) && (e.CreateAccount? || e.SetArchived? || e.DeleteAccount? || e.SetCategory?)
    ensures Inverse(Step(s, e).0.goals, Step(s, e).0.accounts)
  {
    forall g | g in s.goals && s.goals[g].linked.Some? ensures LinksBack(s.goals, s.accounts, g) {}
    forall a | a in s.accounts && s.accounts[a].goal.Some? ensures ServesBack(s.goals, s.accounts, a) {}
  }

  lemma StepInverse(s: Tables, e: Event)
    requires Inverse(s.goals, s.accounts)
    ensures Inverse(Step(s, e).0.goals, Step(s, e).0.accounts)
  {
    match e
    case CreateGoal(user, goal, linked, key, usable) => CreateInverse(s, user, goal, linked, key, usable);
    case UpdateGoal(user, goal, linked, usable) => UpdateInverse(s, user, goal, linked, usable);
    case DeleteGoal(user, goal) => if OwnGoal(s, user, goal) { UnlinkedInverse(s.goals, s.accounts, user, goal); }
    case Convert(user, source, target, prepared) => ConvertInverse(s, user, source, target, prepared);
    case _ => OtherInverse(s, e);
  }

  function After(s: Tables, run: seq<Event>): Tables {
    if run == [] then s else Step(After(s, Front(run)), Last(run)).0
  }

  /** A run goes on from where a shorter one has ended, and a run of one event is its transaction. */
  lemma {:induction false} RunsCompose(s: Tables, run: seq<Event>, more: seq<Event>)
    ensures After(s, run + more) == After(After(s, run), more)
    ensures |more| == 1 ==> After(s, run + more) == Step(After(s, run), more[0]).0
  {
    if more == [] {
      assert run + more == run;
    } else {
      RunsCompose(s, run, Front(more));
      assert Front(run + more) == run + Front(more) && Last(run + more) == Last(more);
      if |more| == 1 { assert Front(more) == []; }
    }
  }

  /** Every run of every mix of these transactions keeps the pointers inverse. */
  lemma {:induction false} RunsKeepLinksInverse(s: Tables, run: seq<Event>)
    requires Inverse(s.goals, s.accounts)
    ensures Inverse(After(s, run).goals, After(s, run).accounts)
  {
    if run != [] {
      RunsKeepLinksInverse(s, Front(run));
      StepInverse(After(s, Front(run)), Last(run));
    }
  }

  // ---- what each transaction accepts and changes ------------------------------------------------------------------

  /** A goal may be linked to an account that is the user's, an active asset, and serves no other goal. */
  predicate MayServe(s: Tables, user: Id, account: Id, goal: Option<Id>) {
    && OwnAccount(s, user, account) && s.accounts[account].category in s.categories
    && var row := s.accounts[account];
       var category := s.categories[row.category];
       && category.user == user && category.asset && !category.archived && !row.archived && !row.liability
       && (row.goal.None? || row.goal == goal)
  }

  /** The search for another goal finds one exactly when the account serves another goal. */
  lemma AcceptedExactlyWhen(s: Tables, user: Id, account: Id, goal: Option<Id>)
    requires Inverse(s.goals, s.accounts)
    ensures
      var refused := LinkRefused(s, user, Some(account), goal);
      && (refused.None? <==> MayServe(s, user, account, goal))
      && (refused == Some(NotFound) <==>
          !OwnAccount(s, user, account) || s.accounts[account].category !in s.categories
          || s.categories[s.accounts[account].category].user != user)
      && (refused == Some(Conflict) ==> s.accounts[account].goal.Some? && s.accounts[account].goal != goal)
  {
    forall g | g in s.goals && s.goals[g].linked == Some(account) ensures LinksBack(s.goals, s.accounts, g) {}
    if account in s.accounts && s.accounts[account].goal.Some? { assert ServesBack(s.goals, s.accounts, account); }
  }

  /** What a transaction demands of the tables. */
  predicate Demands(s: Tables, e: Event) {
    match e
    case CreateGoal(user, goal, linked, key, usable) =>
      && (key.None? || (user, key.value) !in s.keys)
      && usable && goal !in s.goals && (linked.None? || MayServe(s, user, linked.value, None))
    case UpdateGoal(user, goal, linked, usable) =>
      OwnGoal(s, user, goal) && usable && (linked.None? || MayServe(s, user, linked.value, Some(goal)))
    case DeleteGoal(user, goal) => OwnGoal(s, user, goal)
    case Convert(user, source, target, prepared) =>
      && OwnAccount(s, user, source) && s.accounts[source].category in s.categories && source !in s.conversions
      && var row := s.accounts[source];
         var category := s.categories[row.category];
         && row.mode == Balance && !row.liability && !row.archived
         && category.user == user && category.investible && !category.archived && prepared && target !in s.accounts
    case CreateAccount(_, account, _, _, _) => account !in s.accounts
    case SetArchived(user, account, archived) =>
      OwnAccount(s, user, account) && (archived || account !in s.conversions)
    case DeleteAccount(user, account) => OwnAccount(s, user, account) && s.accounts[account].archived
    case SetCategory(_, _) => true
  }

  /** A transaction goes through exactly when its demands are met, and changes nothing otherwise. */
  lemma GoesThroughExactlyWhen(s: Tables, e: Event)
    requires Inverse(s.goals, s.accounts)
    ensures
      var (t, outcome) := Step(s, e);
      && (outcome.Done? || outcome.Created? <==> Demands(s, e))
      && (!Demands(s, e) ==> t == s)
  {
    hide LinkRefused, MayServe;
    match e
    case CreateGoal(user, _, linked, _, _) =>
      if linked.Some? { AcceptedExactlyWhen(s, user, linked.value, None); } else { NoLinkIsAccepted(s, user, None); }
    case UpdateGoal(user, goal, linked, _) =>
      if linked.Some? {
        AcceptedExactlyWhen(s, user, linked.value, Some(goal));
      } else {
        NoLinkIsAccepted(s, user, Some(goal));
      }
    case _ =>
  }

  lemma NoLinkIsAccepted(s: Tables, user: Id, goal: Option<Id>)
    ensures LinkRefused(s, user, None, goal).None?
  {
  }

  predicate Links(goals: map<Id, Goal>, g: Id, a: Id) {
    g in goals && goals[g].linked == Some(a)
  }

  predicate Serves(accounts: map<Id, Account>, a: Id, g: Id) {
    a in accounts && accounts[a].goal == Some(g)
  }

  /** Whether a goal is linked to an account once a transaction has gone through. */
  predicate LinkedAfter(s: Tables, e: Event, g: Id, a: Id) {
    match e
    case CreateGoal(_, goal, linked, _, _) => if g == goal then linked == Some(a) else Links(s.goals, g, a)
    case UpdateGoal(_, goal, linked, _) => if g == goal then linked == Some(a) else Links(s.goals, g, a)
    case DeleteGoal(_, goal) => g != goal && Links(s.goals, g, a)
    case Convert(_, source, target, _) =>
      if a == target then Links(s.goals, g, source) else a != source && Links(s.goals, g, a)
    case DeleteAccount(_, account) => a != account && Links(s.goals, g, a)
    case _ => Links(s.goals, g, a)
  }

  /** A transaction moves the links it is asked to move and no other, on both sides. */
  lemma LinksMoveAsAsked(s: Tables, e: Event, g: Id, a: Id)
    requires Inverse(s.goals, s.accounts) && Demands(s, e)
    ensures
      var t := Step(s, e).0;
      && (Links(t.goals, g, a) <==> LinkedAfter(s, e, g, a))
      && (Serves(t.accounts, a, g) <==> LinkedAfter(s, e, g, a))
  {
    hide LinkRefused, MayServe, Unlinked, Linked;
    GoesThroughExactlyWhen(s, e);
    StepInverse(s, e);
    var t := Step(s, e).0;
    if Links(t.goals, g, a) { assert LinksBack(t.goals, t.accounts, g); }
    if Serves(t.accounts, a, g) { assert ServesBack(t.goals, t.accounts, a); }
    if Links(s.goals, g, a) { assert LinksBack(s.goals, s.accounts, g); }
    hide Inverse, LinksBack, ServesBack;
  }

  /** Which goals there are, and whose, changes with their creation and deletion alone. */
  lemma GoalsAreKept(s: Tables, e: Event, g: Id)
    requires Inverse(s.goals, s.accounts) && Demands(s, e)
    ensures
      var t := Step(s, e).0;
      && (g in t.goals <==> (g in s.goals && !(e.DeleteGoal? && e.goal == g)) || (e.CreateGoal? && e.goal == g))
      && (g in t.goals ==> t.goals[g].user == if g in s.goals then s.goals[g].user else e.user)
  {
    GoesThroughExactlyWhen(s, e);
    hide LinkRefused, MayServe, Inverse, Unlinked, Linked;
  }

  /** Which accounts there are, and what they are apart from their goal. */
  lemma AccountsAreKept(s: Tables, e: Event, a: Id)
    requires Inverse(s.goals, s.accounts) && Demands(s, e)
    ensures
      var t := Step(s, e).0;
      && (a in t.accounts <==>
          || (a in s.accounts && !(e.DeleteAccount? && e.account == a))
          || (e.CreateAccount? && e.account == a) || (e.Convert? && e.target == a))
      && (a in t.accounts && a in s.accounts ==>
            && t.accounts[a].(goal := s.accounts[a].goal, archived := s.accounts[a].archived) == s.accounts[a]
            && t.accounts[a].archived == (if e.SetArchived? && e.account == a then e.archived
                                          else s.accounts[a].archived || (e.Convert? && e.source == a)))
  {
    hide LinkRefused, MayServe, Inverse;
    GoesThroughExactlyWhen(s, e);
  }

  /**
   The replacement of a converted account keeps its owner, category and goal and holds positions;
   which account replaced which is recorded until either is deleted.
   */
  lemma ConversionsAreRecorded(s: Tables, e: Event, a: Id)
    requires Inverse(s.goals, s.accounts) && Demands(s, e)
    ensures
      var t := Step(s, e).0;
      && (e.Convert? ==>
            && t.conversions == s.conversions[e.source := e.target]
            && t.accounts[e.target] == s.accounts[e.source].(mode := Positions))
      && (e.CreateAccount? ==>
            t.accounts[e.account] == Account(e.user, None, false, e.liability, e.category, e.mode))
      && (!e.Convert? ==>
            (a in t.conversions <==>
             a in s.conversions && !(e.DeleteAccount? && (e.account == a || e.account == s.conversions[a]))))
      && (!e.Convert? && a in t.conversions ==> t.conversions[a] == s.conversions[a])
      && t.categories == (if e.SetCategory? then s.categories[e.id := e.row] else s.categories)
      && t.keys == (if e.CreateGoal? && e.key.Some?
                    then s.keys[(e.user, e.key.value) := RequestKey("create-goal", Some(e.goal))] else s.keys)
  {
    GoesThroughExactlyWhen(s, e);
    hide LinkRefused, MayServe, Inverse, Unlinked, Linked;
  }

  // ---- what a conversion and an update do to the links ------------------------------------------------------------

  /** A conversion hands the goal of the source, and no other, to the replacement. */
  lemma ConversionMovesTheLink(s: Tables, user: Id, source: Id, target: Id, prepared: bool, g: Id)
    requires Inverse(s.goals, s.accounts) && AccountConverted(s, user, source, target, prepared).1.Created?
             && g in s.goals
    ensures
      var t := AccountConverted(s, user, source, target, prepared).0;
      && g in t.goals
      && t.goals[g].linked == (if s.goals[g].linked == Some(source) then Some(target) else s.goals[g].linked)
      && t.accounts[target].goal == s.accounts[source].goal && t.accounts[source].goal.None?
  {
    if s.goals[g].linked.Some? { assert LinksBack(s.goals, s.accounts, g); }
    if s.accounts[source].goal.Some? { assert ServesBack(s.goals, s.accounts, source); }
  }

  /** Moving a goal's link and moving it back, on the accounts alone. */
  lemma MovingBackRestores(accounts: map<Id, Account>, user: Id, goal: Id, before: Option<Id>, linked: Option<Id>)
    requires forall a | a in accounts && accounts[a].user == user && accounts[a].goal == Some(goal) :: before == Some(a)
    requires before.Some? ==>
               before.value in accounts && accounts[before.value].user == user
               && accounts[before.value].goal == Some(goal)
    requires linked.Some? ==> linked.value in accounts && accounts[linked.value].user == user
                              && (accounts[linked.value].goal.None? || accounts[linked.value].goal == Some(goal))
    ensures
      var there := Linked(Unlinked(accounts, user, goal), user, linked, goal);
      Linked(Unlinked(there, user, goal), user, before, goal) == accounts
  {
    var there := Linked(Unlinked(accounts, user, goal), user, linked, goal);
    var back := Linked(Unlinked(there, user, goal), user, before, goal);
    assert back.Keys == accounts.Keys;
    forall a | a in accounts ensures back[a] == accounts[a] {
      assert there[a] == accounts[a].(goal := there[a].goal);
    }
  }

  /** Updating a goal back to the account it was linked to, if that is still accepted, restores every link. */
  lemma UpdatingBackRestores(s: Tables, user: Id, goal: Id, linked: Option<Id>)
    requires Inverse(s.goals, s.accounts) && GoalUpdated(s, user, goal, linked, true).1.Done?
    requires GoalUpdated(GoalUpdated(s, user, goal, linked, true).0, user, goal, s.goals[goal].linked, true).1.Done?
    ensures GoalUpdated(GoalUpdated(s, user, goal, linked, true).0, user, goal, s.goals[goal].linked, true).0 == s
  {
    if linked.Some? { AcceptedAccountIsFree(s, user, linked.value, Some(goal)); }
    if s.goals[goal].linked.Some? { assert LinksBack(s.goals, s.accounts, goal); }
    forall a | a in s.accounts && s.accounts[a].goal == Some(goal) ensures s.goals[goal].linked == Some(a) {
      assert ServesBack(s.goals, s.accounts, a);
    }
    MovingBackRestores(s.accounts, user, goal, s.goals[goal].linked, linked);
    assert s.goals[goal := s.goals[goal].(linked := linked)][goal := s.goals[goal]] == s.goals;
  }

  // ---- one key, one goal ------------------------------------------------------------------------------------------

  lemma StepKeepsKeys(s: Tables, e: Event, user: Id, key: string)
    requires (user, key) in s.keys
    ensures (user, key) in Step(s, e).0.keys && Step(s, e).0.keys[(user, key)] == s.keys[(user, key)]
  {
  }

  lemma {:induction false} RunKeepsKeys(s: Tables, run: seq<Event>, user: Id, key: string)
    requires (user, key) in s.keys
    ensures (user, key) in After(s, run).keys && After(s, run).keys[(user, key)] == s.keys[(user, key)]
  {
    if run != [] {
      RunKeepsKeys(s, Front(run), user, key);
      StepKeepsKeys(After(s, Front(run)), Last(run), user, key);
    }
  }

  /**
   However much happens in between, repeating a creation with its key creates nothing
   and answers with the first goal.
   */
  lemma KeyCreatesOnce(
    s: Tables, user: Id, goal: Id, linked: Option<Id>, key: string, usable: bool, run: seq<Event>,
    again: Id, linkedAgain: Option<Id>, usableAgain: bool)
    requires GoalCreated(s, user, goal, linked, Some(key), usable).1.Created?
    ensures
      var later := After(GoalCreated(s, user, goal, linked, Some(key), usable).0, run);
      GoalCreated(later, user, again, linkedAgain, Some(key), usableAgain) == (later, Replayed(goal))
  {
    RunKeepsKeys(GoalCreated(s, user, goal, linked, Some(key), usable).0, run, user, key);
  }

  // ---- the statements in sequence ---------------------------------------------------------------------------------

  class Store {
    var accounts: map<Id, Account>
    var goals: map<Id, Goal>
    var categories: map<Id, Category>
    var keys: map<(Id, string), RequestKey>
    var conversions: map<Id, Id>

    constructor (categories: map<Id, Category>)
      ensures Contents() == Tables(map[], map[], categories, map[], map[])
    {
      accounts, goals, keys, conversions := map[], map[], map[], map[];
      this.categories := categories;
    }

    ghost function Contents(): Tables
      reads this
    {
      Tables(accounts, goals, categories, keys, conversions)
    }

    method ValidateLinkedAccount(user: Id, account: Option<Id>, goal: Option<Id>) returns (refused: Option<Failure>)
      ensures refused == LinkRefused(Contents(), user, account, goal)
    {
      if account.None? { return None; }
      if account.value !in accounts || accounts[account.value].user != user { return Some(NotFound); }
      var row := accounts[account.value];
      if row.category !in categories || categories[row.category].user != user { return Some(NotFound); }
      var category := categories[row.category];
      if row.archived || row.liability || category.archived || !category.asset { return Some(Invalid); }
      if exists g | g in goals :: goals[g].user == user && goals[g].linked == account && goal != Some(g) {
        return Some(Conflict);
      }
      return None;
    }

    /** `UPDATE accounts SET goal_id = NULL` for a goal. */
    method Unlink(user: Id, goal: Id)
      modifies this`accounts
      ensures accounts == Unlinked(old(accounts), user, goal)
    {
      accounts := map a | a in accounts ::
        if accounts[a].user == user && accounts[a].goal == Some(goal) then accounts[a].(goal := None) else accounts[a];
      assert accounts == Unlinked(old(accounts), user, goal);
    }

    /** `UPDATE accounts SET goal_id` for an account. */
    method Link(user: Id, account: Id, goal: Id)
      modifies this`accounts
      ensures accounts == Linked(old(accounts), user, Some(account), goal)
    {
      if account in accounts && accounts[account].user == user {
        accounts := accounts[account := accounts[account].(goal := Some(goal))];
      }
    }

    /** `CreateGoal`: the key is reserved first, and a failure after that gives it back. */
    method Create(user: Id, goal: Id, linked: Option<Id>, key: Option<string>, usable: bool) returns (outcome: Outcome)
      modifies this`accounts, this`goals, this`keys
      ensures (Contents(), outcome) == GoalCreated(old(Contents()), user, goal, linked, key, usable)
    {
      var reserved := keys;
      if key.Some? {
        if (user, key.value) in keys {
          var used := keys[(user, key.value)];
          if used.operation == "create-goal" && used.result.Some? { return Replayed(used.result.value); }
          return Failed(Conflict);
        }
        keys := keys[(user, key.value) := RequestKey("create-goal", None)];
      }
      if !usable {
        keys := reserved;
        return Failed(Invalid);
      }
      var refused := ValidateLinkedAccount(user, linked, None);
      if refused.Some? {
        keys := reserved;
        return Failed(refused.value);
      }
      if goal in goals {
        keys := reserved;
        return Failed(Conflict);
      }
      goals := goals[goal := Goal(user, linked)];
      if linked.Some? {
        Link(user, linked.value, goal);
      }
      if key.Some? {
        keys := keys[(user, key.value) := RequestKey("create-goal", Some(goal))];
        assert keys == reserved[(user, key.value) := RequestKey("create-goal", Some(goal))];
      }
      return Created(goal);
    }

    /** `UpdateGoal`: the previous account is unlinked before the new one is linked. */
    method Update(user: Id, goal: Id, linked: Option<Id>, usable: bool) returns (outcome: Outcome)
      modifies this`accounts, this`goals
      ensures (Contents(), outcome) == GoalUpdated(old(Contents()), user, goal, linked, usable)
    {
      if goal !in goals || goals[goal].user != user { return Failed(NotFound); }
      if !usable { return Failed(Invalid); }
      var refused := ValidateLinkedAccount(user, linked, Some(goal));
      if refused.Some? { return Failed(refused.value); }
      goals := goals[goal := goals[goal].(linked := linked)];
      Unlink(user, goal);
      if linked.Some? {
        Link(user, linked.value, goal);
      }
      return Done;
    }

    /** `DeleteGoal`. */
    method Delete(user: Id, goal: Id) returns (outcome: Outcome)
      modifies this`accounts, this`goals
      ensures (Contents(), outcome) == GoalDeleted(old(Contents()), user, goal)
    {
      if goal !in goals || goals[goal].user != user { return Failed(NotFound); }
      Unlink(user, goal);
      goals := goals - {goal};
      return Done;
    }

    /** `Execute`: the replacement is inserted, the source archived, and the goal relinked. */
    method Convert(user: Id, source: Id, target: Id, prepared: bool) returns (outcome: Outcome)
      modifies this`accounts, this`goals, this`conversions
      ensures (Contents(), outcome) == AccountConverted(old(Contents()), user, source, target, prepared)
    {
      if source !in accounts || accounts[source].user != user { return Failed(NotFound); }
      if source in conversions { return Failed(Conflict); }
      var row := accounts[source];
      if row.category !in categories || categories[row.category].user != user
         || row.mode != Balance || row.liability || row.archived { return Failed(NotFound); }
      if categories[row.category].archived || !categories[row.category].investible || !prepared {
        return Failed(Invalid);
      }
      if target in accounts { return Failed(Conflict); }
      accounts := accounts[target := Account(user, row.goal, false, false, row.category, Positions)];
      accounts := accounts[source := accounts[source].(goal := None, archived := true)];
      if row.goal.Some? && row.goal.value in goals && goals[row.goal.value].user == user {
        goals := goals[row.goal.value := goals[row.goal.value].(linked := Some(target))];
      }
      conversions := conversions[source := target];
      return Created(target);
    }
  }
}
