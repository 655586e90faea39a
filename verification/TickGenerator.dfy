/** What one tick does to the tables of users and accounts (src/tick_generator.c, src/calc_stats.c). */
module TickGenerator {
  import opened Data
  import opened UserStats
  import opened Restriction
  import opened CommandQueue
  import opened Accounts
  import opened Registry
  import opened UserTables
  import opened AccountTables

  /** The tables fit together: the accounts' arrays hold the objects of the users' table. */
  ghost predicate Fit(cfg: Config, users: UserTable, accounts: AccountTable)
    reads users, users.repr, accounts, accounts.accounts.Values
  {
    users.Valid(cfg) && accounts.Valid(users.table) && accounts.Apart(users)
  }

  lemma ValuesAdded(m: map<Name, Account>, a: Name, ac: Account)
    ensures m[a := ac].Values <= m.Values + {ac}
  {
  }

  /** The rest of add_user_stats, once the account's name is known. */
  method AddToTables(cfg: Config, users: UserTable, accounts: AccountTable, username: Name, account: Name)
    requires Fit(cfg, users, accounts) && Intervals(cfg) && username !in users.table
    modifies users, accounts, accounts.accounts.Values
    ensures Fit(cfg, users, accounts)
    ensures fresh(users.repr - old(users.repr)) && fresh(accounts.accounts.Values - old(accounts.accounts.Values))
    ensures users.records == old(users.records)[username := Record(0, [])]
    ensures accounts.members == Joined(old(accounts.members), account, username)
    ensures accounts.states == WithState(old(accounts.states), account)
  {
    ghost var table, was := users.table, accounts.accounts;
    var us := users.Add(cfg, username, account);
    assert accounts.accounts == was && accounts.Valid(table);
    assert accounts.Apart(users);
    label added:
    AddToAccounts(users, accounts, username, account, us, table);
    users.Kept@added(cfg);
  }

  method AddToAccounts(users: UserTable, accounts: AccountTable, username: Name, account: Name,
                       us: User, ghost table: map<Name, User>)
    requires accounts.Valid(table) && accounts.Apart(users)
    requires username !in table && us.id == username && users.table == table[username := us]
    modifies accounts, accounts.accounts.Values
    ensures accounts.Valid(users.table) && accounts.Apart(users)
    ensures fresh(accounts.accounts.Values - old(accounts.accounts.Values))
    ensures accounts.members == Joined(old(accounts.members), account, username)
    ensures accounts.states == WithState(old(accounts.states), account)
  {
    ghost var was := accounts.accounts;
    var ac := accounts.AddUser(account, username, us, table);
    ValuesAdded(was, account, ac);
    assert accounts.accounts.Values <= was.Values + {ac};
    assert account !in was ==> ac !in users.repr;
  }

  /** The tables fit together, and the arrays are a partition of the users. */
  ghost predicate Consistent(cfg: Config, users: UserTable, accounts: AccountTable, names: map<Name, Name>)
    reads users, users.repr, accounts, accounts.accounts.Values
  {
    Fit(cfg, users, accounts) && Partition(accounts.members, users.records.Keys, names)
  }

  method AddUserStats(cfg: Config, users: UserTable, accounts: AccountTable, username: Name, account: Name,
                      ghost names: map<Name, Name>, ghost names': map<Name, Name>)
    requires Consistent(cfg, users, accounts, names) && Intervals(cfg) && username !in users.table
    requires username in names' && account == names'[username]
    requires forall m :: m in names ==> m in names' && names'[m] == names[m]
    modifies users, accounts, accounts.accounts.Values
    ensures Consistent(cfg, users, accounts, names') && username in users.table
    ensures fresh(users.repr - old(users.repr)) && fresh(accounts.accounts.Values - old(accounts.accounts.Values))
    ensures users.records == old(users.records)[username := Record(0, [])]
    ensures accounts.members == Joined(old(accounts.members), account, username)
    ensures accounts.states == WithState(old(accounts.states), account)
  {
    ghost var joined := Joined(accounts.members, account, username);
    ghost var keys := users.records.Keys + {username};
    JoinKeepsPartition(accounts.members, users.records.Keys, names, names', username);
    assert users.records[username := Record(0, [])].Keys == keys;
    AddToTables(cfg, users, accounts, username, account);
    assert users.records.Keys == keys && accounts.members == joined;
  }

  /** Accounts appear, fresh ones; those that were there stay as they are. */
  ghost predicate Grown(before: map<Name, Acc>, states: map<Name, Acc>) {
    && before.Keys <= states.Keys
    && forall a :: a in states ==> states[a] == if a in before then before[a] else FRESH
  }

  /** A sample for a known user. */
  method GiveSample(cfg: Config, users: UserTable, accounts: AccountTable, ghost names: map<Name, Name>,
                    username: Name, st: Stats, tickId: nat)
    requires Consistent(cfg, users, accounts, names) && username in users.table
    modifies users.table[username].Repr(), users`records
    ensures Consistent(cfg, users, accounts, names)
    ensures users.repr == old(users.repr) && users.table == old(users.table)
    ensures accounts.accounts == old(accounts.accounts) && accounts.states == old(accounts.states)
    ensures users.records == old(users.records)[username := Sampled(old(users.records)[username], st, tickId)]
  {
    label before:
    ghost var keys := users.records.Keys;
    users.TickOf(cfg, username);
    users.Give(cfg, username, st, tickId);
    assert users.records.Keys == keys;
    accounts.Kept@before(users.table);
  }

  lemma GrownByOne(states: map<Name, Acc>, a: Name)
    ensures Grown(states, WithState(states, a)) && Grown(states, states)
  {
  }

  method AddUnknown(cfg: Config, users: UserTable, accounts: AccountTable, names: map<Name, Name>,
                    username: Name, how: Naming) returns (names': map<Name, Name>)
    requires Consistent(cfg, users, accounts, names) && Intervals(cfg) && username !in users.table
    modifies users, accounts, accounts.accounts.Values
    ensures Consistent(cfg, users, accounts, names') && username in users.table
    ensures fresh(users.repr - old(users.repr)) && fresh(accounts.accounts.Values - old(accounts.accounts.Values))
    ensures users.records == old(users.records)[username := Record(0, [])]
    ensures Grown(old(accounts.states), accounts.states)
  {
    names' := GetUserAccount(names, username, how);
    GrownByOne(accounts.states, names'[username]);
    AddUserStats(cfg, users, accounts, username, names'[username], names, names');
  }

  /** A user not known yet joins its account. */
  method MakeKnown(cfg: Config, users: UserTable, accounts: AccountTable, names: map<Name, Name>,
                   username: Name, how: Naming) returns (names': map<Name, Name>)
    requires Consistent(cfg, users, accounts, names) && Intervals(cfg)
    modifies users, accounts, accounts.accounts.Values
    ensures Consistent(cfg, users, accounts, names') && username in users.table
    ensures fresh(users.repr - old(users.repr)) && fresh(accounts.accounts.Values - old(accounts.accounts.Values))
    ensures users.records == WithRecord(old(users.records), username)
    ensures Grown(old(accounts.states), accounts.states)
  {
    names' := names;
    if username !in users.table {
      names' := AddUnknown(cfg, users, accounts, names, username, how);
    } else {
      GrownByOne(accounts.states, username);
    }
  }

  method AddNewStats(cfg: Config, users: UserTable, accounts: AccountTable, names: map<Name, Name>,
                     username: Name, st: Stats, how: Naming, tickId: nat) returns (names': map<Name, Name>)
    requires Consistent(cfg, users, accounts, names) && Intervals(cfg)
    modifies users, users.repr, accounts, accounts.accounts.Values
    ensures Consistent(cfg, users, accounts, names')
    ensures fresh(users.repr - old(users.repr)) && fresh(accounts.accounts.Values - old(accounts.accounts.Values))
    ensures users.records == Given(old(users.records), username, st, tickId)
    ensures Grown(old(accounts.states), accounts.states)
  {
    GivenAnyway(users.records, username, st, tickId);
    names' := MakeKnown(cfg, users, accounts, names, username, how);
    GiveSample(cfg, users, accounts, names', username, st, tickId);
  }

  lemma GrownTwice(before: map<Name, Acc>, between: map<Name, Acc>, states: map<Name, Acc>)
    requires Grown(before, between) && Grown(between, states)
    ensures Grown(before, states)
  {
  }

  /** The same under every configuration that sizes the rings alike. */
  ghost predicate Steady(cfg: Config, users: UserTable, accounts: AccountTable, names: map<Name, Name>)
    reads users, users.repr, accounts, accounts.accounts.Values
  {
    forall c :: SameIntervals(c, cfg) ==> Consistent(c, users, accounts, names)
  }

  lemma SteadyMeans(cfg: Config, users: UserTable, accounts: AccountTable, names: map<Name, Name>)
    requires Steady(cfg, users, accounts, names)
    ensures Consistent(cfg, users, accounts, names)
  {
    assert SameIntervals(cfg, cfg);
  }

  lemma SteadyFrom(cfg: Config, users: UserTable, accounts: AccountTable, names: map<Name, Name>)
    requires Consistent(cfg, users, accounts, names)
    ensures Steady(cfg, users, accounts, names)
  {
    forall c | SameIntervals(c, cfg) ensures Consistent(c, users, accounts, names) {
      users.ValidAlike(cfg, c);
    }
  }

  /** add_user_stats_from_counter for one counter of the walk. */
  method FeedNext(cfg: Config, users: UserTable, accounts: AccountTable, names: map<Name, Name>, n: Name,
                  samples: map<Name, Stats>, how: Name -> Naming, tickId: nat,
                  ghost before: map<Name, Record>, ghost states: map<Name, Acc>, ghost todo: set<Name>)
    returns (names': map<Name, Name>)
    requires Steady(cfg, users, accounts, names) && Intervals(cfg)
    requires 0 < tickId && Older(before, tickId) && n in todo && todo <= samples.Keys
    requires Halfway(before, samples, todo, tickId, users.records) && Grown(states, accounts.states)
    modifies users, users.repr, accounts, accounts.accounts.Values
    ensures Steady(cfg, users, accounts, names')
    ensures fresh(users.repr - old(users.repr)) && fresh(accounts.accounts.Values - old(accounts.accounts.Values))
    ensures Halfway(before, samples, todo - {n}, tickId, users.records) && Grown(states, accounts.states)
  {
    ghost var between := accounts.states;
    SteadyMeans(cfg, users, accounts, names);
    HalfwayNext(before, samples, todo, tickId, users.records, n);
    names' := AddNewStats(cfg, users, accounts, names, n, samples[n], how(n), tickId);
    SteadyFrom(cfg, users, accounts, names');
    GrownTwice(states, between, accounts.states);
  }

  /** The walk over the counters of one tick. */
  method FeedSamples(cfg: Config, users: UserTable, accounts: AccountTable, names: map<Name, Name>,
                     samples: map<Name, Stats>, how: Name -> Naming, tickId: nat) returns (names': map<Name, Name>)
    requires Steady(cfg, users, accounts, names) && Intervals(cfg)
    requires 0 < tickId && Older(users.records, tickId)
    modifies users, users.repr, accounts, accounts.accounts.Values
    ensures Steady(cfg, users, accounts, names')
    ensures fresh(users.repr - old(users.repr)) && fresh(accounts.accounts.Values - old(accounts.accounts.Values))
    ensures Halfway(old(users.records), samples, {}, tickId, users.records)
    ensures Grown(old(accounts.states), accounts.states)
  {
    ghost var before, states := users.records, accounts.states;
    var todo := samples.Keys;
    names' := names;
    while todo != {}
      invariant Steady(cfg, users, accounts, names') && todo <= samples.Keys
      invariant fresh(users.repr - old(users.repr)) && fresh(accounts.accounts.Values - old(accounts.accounts.Values))
      invariant Halfway(before, samples, todo, tickId, users.records) && Grown(states, accounts.states)
    {
      var n :| n in todo;
      names' := FeedNext(cfg, users, accounts, names', n, samples, how, tickId, before, states, todo);
      todo := todo - {n};
    }
  }

  /** Accounts made by this tick are summed up like the others. */
  lemma GrownSummed(before: map<Name, Acc>, grown: map<Name, Acc>, members: map<Name, seq<Name>>,
                    part: map<Name, Usage>, states: map<Name, Acc>)
    requires Grown(before, grown) && SummedBut(grown, members, part, {}, states)
    ensures states == SummedStates(before, members, part)
  {
  }

  lemma PartitionPeopled(members: map<Name, seq<Name>>, names: set<Name>, table: map<Name, Name>)
    requires Partition(members, names, table)
    ensures Peopled(members, names)
  {
    forall a | a in members ensures members[a] != [] && forall n :: n in members[a] ==> n in names {
      assert Filled(members, names, table, a);
    }
  }

  /** The walk over the users. */
  method TickEmptyUsers(cfg: Config, users: UserTable, accounts: AccountTable, ghost names: map<Name, Name>,
                        tickId: nat)
    requires Steady(cfg, users, accounts, names)
    modifies users.repr, users`records
    ensures Steady(cfg, users, accounts, names)
    ensures users.repr == old(users.repr) && accounts.accounts == old(accounts.accounts)
    ensures accounts.members == old(accounts.members) && accounts.states == old(accounts.states)
    ensures ToppedBut(old(users.records), {}, tickId, users.records)
  {
    SteadyMeans(cfg, users, accounts, names);
    label before:
    ghost var keys := users.records.Keys;
    users.TickEmptyUsers(cfg, tickId);
    assert users.records.Keys == keys;
    accounts.Kept@before(users.table);
    SteadyFrom(cfg, users, accounts, names);
  }

  /** The walk over the accounts that sums up. */
  method CalcAccounts(cfg: Config, users: UserTable, accounts: AccountTable, ghost names: map<Name, Name>)
    returns (ghost part: map<Name, Usage>)
    requires Steady(cfg, users, accounts, names) && Intervals(cfg)
    modifies accounts.accounts.Values, accounts`members, accounts`states
    ensures Steady(cfg, users, accounts, names)
    ensures accounts.accounts == old(accounts.accounts) && accounts.members == old(accounts.members)
    ensures part == PartMap(cfg, users.records)
    ensures SummedBut(old(accounts.states), accounts.members, part, {}, accounts.states)
  {
    SteadyMeans(cfg, users, accounts, names);
    part := PartMap(cfg, users.records);
    PartitionPeopled(accounts.members, users.records.Keys, names);
    ghost var members := accounts.members;
    accounts.CalcAccounts(cfg, users, part);
    assert accounts.members == members;
    SteadyFrom(cfg, users, accounts, names);
  }

  /** The walk over the accounts that restricts and releases. */
  method AnalyzeAccounts(cfg: Config, users: UserTable, accounts: AccountTable, ghost names: map<Name, Name>,
                         inputs: Name -> Input, q: Commands) returns (ghost order: seq<Name>)
    requires Steady(cfg, users, accounts, names) && q.State().Valid() && q !in users.repr
    modifies accounts.accounts.Values, accounts`members, accounts`states, q
    ensures Steady(cfg, users, accounts, names)
    ensures accounts.accounts == old(accounts.accounts) && accounts.members == old(accounts.members)
    ensures TickedBut(cfg, inputs, old(accounts.states), {}, accounts.states)
    ensures AccountTables.Visited(order, {}, accounts.members.Keys)
    ensures AllIn(order, old(accounts.states), accounts.members)
    ensures q.State() == old(q.State()).Append(Batches(cfg, inputs, old(accounts.states), accounts.members, order))
  {
    SteadyMeans(cfg, users, accounts, names);
    label before:
    order := accounts.AnalyzeAccounts(cfg, inputs, q, users.table);
    users.Kept@before(cfg);
    SteadyFrom(cfg, users, accounts, names);
  }

  lemma TickSumsUp(cfg: Config, inputs: Name -> Input, before: map<Name, Acc>, members: map<Name, seq<Name>>,
                   part: map<Name, Usage>, states: map<Name, Acc>)
    requires Peopled(members, part.Keys)
    requires TickedBut(cfg, inputs, SummedStates(before, members, part), {}, states)
    ensures SumsUp(members, part, Usages(states))
  {
    var summed := SummedStates(before, members, part);
    forall a | a in members ensures a in states && states[a].usage == SumUsages(Parts(members[a], part)) {
      assert a in summed;
      TickKeepsUsage(cfg, inputs(a).sl, summed[a], inputs(a).r);
    }
  }

  /** Adding up the accounts' usage after a tick is adding up the users' contributions. */
  lemma TickConserves(cfg: Config, inputs: Name -> Input, before: map<Name, Acc>, members: map<Name, seq<Name>>,
                      names: map<Name, Name>, part: map<Name, Usage>, states: map<Name, Acc>)
    requires Partition(members, part.Keys, names) && Peopled(members, part.Keys)
    requires TickedBut(cfg, inputs, SummedStates(before, members, part), {}, states)
    ensures SumOver(members.Keys, Usages(states)) == SumOver(part.Keys, part)
  {
    TickSumsUp(cfg, inputs, before, members, part, states);
    AccountsConserve(members, part.Keys, names, part, Usages(states));
  }

  function Usages(states: map<Name, Acc>): map<Name, Usage> {
    map a | a in states :: states[a].usage
  }

  lemma TickKeepsUsage(cfg: Config, sl: Limits, st: Acc, r: Readings)
    ensures Ticked(cfg, sl, st, r).acc.usage == st.usage
  {
  }

  /** To analyse an account after summing it up is the tick of the run theorems. */
  lemma TickIsStep(cfg: Config, sl: Limits, st: Acc, names: seq<Name>, part: map<Name, Usage>, r: Readings)
    requires forall n :: n in names ==> n in part
    ensures Ticked(cfg, sl, Summed(st, names, part), r)
            == Restriction.Step(cfg, sl, st, Restriction.Tick(SumUsages(Parts(names, part)), r))
  {
  }

  /** What the two walks over the accounts amount to: every account has taken the tick's step with its
      users' contributions, and the batches are queued in the order in which the accounts were visited. */
  ghost predicate Judged(cfg: Config, inputs: Name -> Input, before: map<Name, Acc>, members: map<Name, seq<Name>>,
                         part: map<Name, Usage>, states: map<Name, Acc>, order: seq<Name>, start: Queue, end: Queue)
  {
    && Peopled(members, part.Keys)
    && var summed := SummedStates(before, members, part);
       && TickedBut(cfg, inputs, summed, {}, states)
       && AccountTables.Visited(order, {}, members.Keys) && AllIn(order, summed, members)
       && end == start.Append(Batches(cfg, inputs, summed, members, order))
  }

  /** The walks over the counters and over the users: every user gets exactly one sample. */
  method RecordSamples(cfg: Config, users: UserTable, accounts: AccountTable, names: map<Name, Name>,
                       samples: map<Name, Stats>, how: Name -> Naming, tickId: nat)
    returns (names': map<Name, Name>)
    requires Steady(cfg, users, accounts, names) && Intervals(cfg)
    requires 0 < tickId && Older(users.records, tickId)
    modifies users, users.repr, accounts, accounts.accounts.Values
    ensures Steady(cfg, users, accounts, names')
    ensures fresh(users.repr - old(users.repr)) && fresh(accounts.accounts.Values - old(accounts.accounts.Values))
    ensures HistsOf(users.records) == Recorded(HistsOf(old(users.records)), samples)
    ensures NotAfter(users.records, tickId) && Grown(old(accounts.states), accounts.states)
  {
    ghost var before := users.records;
    names' := FeedSamples(cfg, users, accounts, names, samples, how, tickId);
    ghost var fed := users.records;
    TickEmptyUsers(cfg, users, accounts, names', tickId);
    AllRecorded(before, samples, tickId, fed, users.records);
    ToppedNotAfter(fed, users.records, tickId);
  }

  lemma SteadyConserves(cfg: Config, users: UserTable, accounts: AccountTable, names: map<Name, Name>,
                        inputs: Name -> Input, before: map<Name, Acc>, part: map<Name, Usage>, order: seq<Name>,
                        start: Queue, end: Queue)
    requires Steady(cfg, users, accounts, names) && part.Keys == users.records.Keys
    requires Judged(cfg, inputs, before, accounts.members, part, accounts.states, order, start, end)
    ensures SumOver(accounts.members.Keys, Usages(accounts.states)) == SumOver(part.Keys, part)
  {
    SteadyMeans(cfg, users, accounts, names);
    TickConserves(cfg, inputs, before, accounts.members, names, part, accounts.states);
  }

  /** proceed_accounts: every user gets exactly one sample, then every account takes one step of the
      run theorems with the sum of its users' contributions. */
  method Proceed(cfg: Config, users: UserTable, accounts: AccountTable, names: map<Name, Name>,
                 samples: map<Name, Stats>, how: Name -> Naming, inputs: Name -> Input, tickId: nat, q: Commands)
    returns (names': map<Name, Name>, ghost part: map<Name, Usage>, ghost order: seq<Name>)
    requires Steady(cfg, users, accounts, names) && Intervals(cfg)
    requires 0 < tickId && Older(users.records, tickId)
    requires q.State().Valid() && q !in users.repr
    modifies users, users.repr, accounts, accounts.accounts.Values, q
    ensures Steady(cfg, users, accounts, names') && q !in users.repr
    ensures fresh(users.repr - old(users.repr)) && fresh(accounts.accounts.Values - old(accounts.accounts.Values))
    ensures HistsOf(users.records) == Recorded(HistsOf(old(users.records)), samples)
    ensures NotAfter(users.records, tickId)
    ensures part == PartMap(cfg, users.records)
    ensures Judged(cfg, inputs, old(accounts.states), accounts.members, part, accounts.states, order,
                   old(q.State()), q.State())
    ensures SumOver(accounts.members.Keys, Usages(accounts.states)) == SumOver(part.Keys, part)
  {
    ghost var states, start := accounts.states, q.State();
    names' := RecordSamples(cfg, users, accounts, names, samples, how, tickId);
    ghost var grown := accounts.states;
    part := CalcAccounts(cfg, users, accounts, names');
    GrownSummed(states, grown, accounts.members, part, accounts.states);
    order := AnalyzeAccounts(cfg, users, accounts, names', inputs, q);
    SteadyConserves(cfg, users, accounts, names', inputs, states, part, order, start, q.State());
  }

  method AddEmptyStats(cfg: Config, users: UserTable, accounts: AccountTable, names: map<Name, Name>,
                       username: Name, how: Naming, ghost tickId: nat) returns (names': map<Name, Name>)
    requires Steady(cfg, users, accounts, names) && Intervals(cfg) && NotAfter(users.records, tickId)
    modifies users, accounts, accounts.accounts.Values
    ensures Steady(cfg, users, accounts, names') && NotAfter(users.records, tickId)
    ensures fresh(users.repr - old(users.repr)) && fresh(accounts.accounts.Values - old(accounts.accounts.Values))
    ensures users.records == WithRecord(old(users.records), username)
    ensures HistsOf(users.records) == WithHistory(HistsOf(old(users.records)), username)
    ensures Grown(old(accounts.states), accounts.states)
  {
    KnownHistories(users.records, username, tickId);
    ghost var known := WithRecord(users.records, username);
    SteadyMeans(cfg, users, accounts, names);
    names' := MakeKnown(cfg, users, accounts, names, username, how);
    assert users.records == known;
    SteadyFrom(cfg, users, accounts, names');
  }

  /** The account that a dbctl restrict addresses when the walk over the accounts reaches one of them. */
  method Target(cfg: Config, users: UserTable, accounts: AccountTable, names: map<Name, Name>, a: Name,
                username: Name, how: Naming) returns (names': map<Name, Name>, target: Name)
    requires Steady(cfg, users, accounts, names) && Intervals(cfg) && a in accounts.members
    modifies users, accounts, accounts.accounts.Values
    ensures Steady(cfg, users, accounts, names') && target in accounts.members
    ensures fresh(users.repr - old(users.repr)) && fresh(accounts.accounts.Values - old(accounts.accounts.Values))
    ensures users.records == WithRecord(old(users.records), username)
    ensures Grown(old(accounts.states), accounts.states)
    ensures username in old(users.records) ==> target == a && accounts.members == old(accounts.members)
    ensures username !in old(users.records) ==> username in accounts.members[target]
  {
    SteadyMeans(cfg, users, accounts, names);
    if username in users.table {
      names', target := names, a;
      GrownByOne(accounts.states, a);
    } else {
      names' := AddUnknown(cfg, users, accounts, names, username, how);
      target := names'[username];
      assert Member(accounts.members, names', username);
      SteadyFrom(cfg, users, accounts, names');
    }
  }

  /** dbctl_restrict_set, when the walk over the accounts reaches account a: a user that nobody knew yet
      joins its account first, which is then the one that is restricted. */
  method DbctlRestrictSet(cfg: Config, users: UserTable, accounts: AccountTable, names: map<Name, Name>, a: Name,
                          username: Name, how: Naming, limits: Name -> Limits, level: int, start: int, q: Commands)
    returns (names': map<Name, Name>, target: Name, ghost grown: map<Name, Acc>)
    requires Steady(cfg, users, accounts, names) && Intervals(cfg) && a in accounts.members
    requires q.State().Valid() && q !in users.repr
    modifies users, accounts, accounts.accounts.Values, q
    ensures Steady(cfg, users, accounts, names') && target in accounts.members && target in grown
    ensures users.records == WithRecord(old(users.records), username)
    ensures Grown(old(accounts.states), grown)
    ensures username in old(users.records) ==> target == a && accounts.members == old(accounts.members)
    ensures username !in old(users.records) ==> username in accounts.members[target]
    ensures if target == username || username in accounts.members[target] then
              && accounts.states == grown[target := DbctlRestrict(cfg, limits(target), grown[target], level, start).acc]
              && q.State() == old(q.State()).Append(FreezeBatch(cfg, accounts.members[target]))
            else accounts.states == grown && q.State() == old(q.State())
  {
    names', target := Target(cfg, users, accounts, names, a, username, how);
    grown := accounts.states;
    OneBatch(cfg, accounts.members[target], FREEZE);
    AppendNothing(q.State());
    RestrictTarget(cfg, users, accounts, names', target, limits(target), username, level, start, q);
  }

  method RestrictTarget(cfg: Config, users: UserTable, accounts: AccountTable, ghost names: map<Name, Name>,
                        target: Name, sl: Limits, username: Name, level: int, start: int, q: Commands)
    requires Steady(cfg, users, accounts, names) && target in accounts.members
    requires q.State().Valid() && q !in users.repr
    modifies accounts.accounts.Values, accounts`members, accounts`states, q
    ensures Steady(cfg, users, accounts, names) && accounts.members == old(accounts.members)
    ensures target in old(accounts.states)
    ensures var o := IfNamed(cfg, sl, target, accounts.members[target], old(accounts.states)[target], username, level,
                               start);
            && accounts.states == old(accounts.states)[target := o.acc]
            && q.State() == old(q.State()).Append(BatchFor(cfg, accounts.members[target], o.out))
  {
    SteadyMeans(cfg, users, accounts, names);
    ghost var o := IfNamed(cfg, sl, target, accounts.members[target], accounts.states[target], username, level, start);
    label before:
    accounts.RestrictAccount(cfg, target, sl, username, level, start, q, users.table, o);
    users.Kept@before(cfg);
    SteadyFrom(cfg, users, accounts, names);
  }

  class Generator {
    const users: UserTable
    const accounts: AccountTable
    var userAccountTable: map<Name, Name>
    var tickId: nat

    ghost predicate Valid(cfg: Config)
      reads this, users, users.repr, accounts, accounts.accounts.Values
    {
      && Steady(cfg, users, accounts, userAccountTable) && this !in users.repr
      && NotAfter(users.records, tickId)
    }

    constructor (cfg: Config)
      ensures Valid(cfg) && fresh(users) && fresh(accounts) && fresh(users.repr) && fresh(accounts.accounts.Values)
      ensures users.records == map[] && accounts.members == map[] && accounts.states == map[] && tickId == 0
    {
      users := new UserTable(cfg);
      accounts := new AccountTable();
      userAccountTable := map[];
      tickId := 0;
      new;
      SteadyFrom(cfg, users, accounts, userAccountTable);
    }

    method ProceedAccounts(cfg: Config, samples: map<Name, Stats>, how: Name -> Naming, inputs: Name -> Input,
                           q: Commands)
      returns (ghost part: map<Name, Usage>, ghost order: seq<Name>)
      requires Valid(cfg) && Intervals(cfg) && q.State().Valid() && q !in users.repr
      modifies this, users, users.repr, accounts, accounts.accounts.Values, q
      ensures Valid(cfg) && q !in users.repr && tickId == old(tickId) + 1
      ensures HistsOf(users.records) == Recorded(HistsOf(old(users.records)), samples)
      ensures part == PartMap(cfg, users.records)
      ensures Judged(cfg, inputs, old(accounts.states), accounts.members, part, accounts.states, order,
                     old(q.State()), q.State())
      ensures SumOver(accounts.members.Keys, Usages(accounts.states)) == SumOver(part.Keys, part)
    {
      assert Older(users.records, tickId + 1);
      var names;
      names, part, order := Proceed(cfg, users, accounts, userAccountTable, samples, how, inputs, tickId + 1, q);
      assert this !in users.repr;
      Remember(cfg, names, tickId + 1);
    }

    method Remember(cfg: Config, names: map<Name, Name>, t: nat)
      requires Steady(cfg, users, accounts, names) && this !in users.repr && NotAfter(users.records, t)
      modifies `userAccountTable, `tickId
      ensures Valid(cfg) && tickId == t && userAccountTable == names
    {
      userAccountTable := names;
      tickId := t;
    }

    /** add_empty_stats_for_uid: a user of the dbuser map is known before it first consumes anything. */
    method AddEmptyStatsForUid(cfg: Config, username: Name, how: Naming)
      requires Valid(cfg) && Intervals(cfg)
      modifies this, users, accounts, accounts.accounts.Values
      ensures Valid(cfg) && fresh(users.repr - old(users.repr))
      ensures HistsOf(users.records) == WithHistory(HistsOf(old(users.records)), username) && tickId == old(tickId)
      ensures Grown(old(accounts.states), accounts.states)
    {
      var names := AddEmptyStats(cfg, users, accounts, userAccountTable, username, how, tickId);
      assert this !in users.repr;
      Remember(cfg, names, tickId);
    }
  }
}
