/** The table of accounts, whose arrays share the objects of the table of users (src/calc_stats.c). */
module AccountTables {
  import opened Data
  import opened UserStats
  import opened Restriction
  import opened CommandQueue
  import opened Accounts
  import opened Registry
  import opened UserTables

  /** The account's array holds exactly the objects that the table of users has for these names, and
      its fields are those of the state. */
  ghost predicate Holds(ac: Account, a: Name, names: seq<Name>, table: map<Name, User>, st: Acc)
    reads ac
  {
    && ac.id == a && ac.State() == st
    && |ac.users| == |names|
    && forall i :: 0 <= i < |names| ==>
         names[i] in table && ac.users[i] == table[names[i]] && ac.users[i].id == names[i]
  }

  /** The tables once an account exists. */
  function WithMembers(members: map<Name, seq<Name>>, a: Name): map<Name, seq<Name>> {
    if a in members then members else members[a := []]
  }

  function WithState(states: map<Name, Acc>, a: Name): map<Name, Acc> {
    if a in states then states else states[a := FRESH]
  }

  lemma JoinedLate(members: map<Name, seq<Name>>, states: map<Name, Acc>, a: Name, n: Name)
    ensures var made := WithMembers(members, a); made[a := made[a] + [n]] == Joined(members, a, n)
    ensures var made := WithState(states, a); made[a := made[a]] == made
  {
  }

  lemma HoldsMore(ac: Account, a: Name, names: seq<Name>, table: map<Name, User>, n: Name, u: User, st: Acc)
    requires Holds(ac, a, names, table, st) && n !in table
    ensures Holds(ac, a, names, table[n := u], st)
  {
  }

  method Enlist(ac: Account, u: User, ghost a: Name, ghost names: seq<Name>, ghost table: map<Name, User>, n: Name,
                ghost st: Acc)
    requires Holds(ac, a, names, table, st) && n !in table && u.id == n
    modifies ac`users
    ensures Holds(ac, a, names + [n], table[n := u], st)
  {
    ac.AddUser(u);
  }

  /** The state after calc_acc_stats. */
  function Summed(st: Acc, names: seq<Name>, part: map<Name, Usage>): Acc
    requires forall n :: n in names ==> n in part
  {
    st.(usage := SumUsages(Parts(names, part)))
  }

  lemma PartsOf(cfg: Config, ac: Account, users: UserTable, a: Name, names: seq<Name>, st: Acc)
    returns (parts: seq<Usage>)
    requires Intervals(cfg) && users.Valid(cfg) && Holds(ac, a, names, users.table, st)
    ensures forall n :: n in names ==> n in users.records
    ensures parts == Parts(names, PartMap(cfg, users.records)) && Contribute(ac.users, parts)
  {
    parts := Parts(names, PartMap(cfg, users.records));
    forall i | 0 <= i < |names| ensures ac.users[i].stats.Valid() && parts[i] == Contribution(ac.users[i]) {
      assert users.Owned(cfg, names[i]);
      StandsContributes(cfg, ac.users[i], names[i], users.records[names[i]]);
    }
  }

  method SumUp(ac: Account, ghost parts: seq<Usage>, ghost a: Name, ghost names: seq<Name>,
               ghost table: map<Name, User>, ghost st: Acc)
    requires Holds(ac, a, names, table, st) && names != [] && Contribute(ac.users, parts)
    modifies ac
    ensures Holds(ac, a, names, table, st.(usage := SumUsages(parts)))
  {
    ac.CalcAccStats(parts);
  }

  /** Every account has users, and all of them are known. */
  ghost predicate Peopled(members: map<Name, seq<Name>>, names: set<Name>) {
    forall a :: a in members ==> members[a] != [] && forall n :: n in members[a] ==> n in names
  }

  /** In the middle of the walk: todo holds the accounts not visited yet. */
  ghost predicate SummedBut(before: map<Name, Acc>, members: map<Name, seq<Name>>, part: map<Name, Usage>,
                            todo: set<Name>, states: map<Name, Acc>)
  {
    && states.Keys == before.Keys == members.Keys && Peopled(members, part.Keys)
    && forall a :: a in states ==> states[a] == if a in todo then before[a] else Summed(before[a], members[a], part)
  }

  lemma SummedNext(before: map<Name, Acc>, members: map<Name, seq<Name>>, part: map<Name, Usage>, todo: set<Name>,
                   states: map<Name, Acc>, a: Name)
    requires SummedBut(before, members, part, todo, states) && a in todo && a in states
    ensures a in members && members[a] != [] && forall n :: n in members[a] ==> n in part
    ensures SummedBut(before, members, part, todo - {a}, states[a := Summed(states[a], members[a], part)])
  {
  }

  /** An account as it is before a tick; one that the tick makes is fresh. */
  function StateOf(states: map<Name, Acc>, a: Name): Acc {
    if a in states then states[a] else FRESH
  }

  /** The states once calc_acc_stats has visited all accounts. */
  function SummedStates(before: map<Name, Acc>, members: map<Name, seq<Name>>, part: map<Name, Usage>): map<Name, Acc>
    requires forall a, n :: a in members && n in members[a] ==> n in part
  {
    map a | a in members :: Summed(StateOf(before, a), members[a], part)
  }

  /** What a tick does to an account whose statistics are summed up already. */
  function Ticked(cfg: Config, sl: Limits, st: Acc, r: Readings): Outcome {
    Restriction.Step(cfg, sl, st, Restriction.Tick(st.usage, r))
  }

  method AnalyzeHeld(cfg: Config, ac: Account, sl: Limits, r: Readings, q: Commands,
                 ghost a: Name, ghost names: seq<Name>, ghost table: map<Name, User>, ghost st: Acc)
    requires Holds(ac, a, names, table, st) && q.State().Valid()
    modifies ac, q
    ensures Holds(ac, a, names, table, Ticked(cfg, sl, st, r).acc)
    ensures q.State() == old(q.State()).Append(BatchFor(cfg, names, Ticked(cfg, sl, st, r).out))
  {
    assert ac.UserNames() == names;
    if cfg.restrictMode {
      ac.AccountAnalyzeLimit(cfg, sl, r, q);
    } else {
      ac.AccountAnalyze(cfg, sl, r, q);
    }
  }

  /** What dbctl restrict does to one account: nothing unless it has that name or a user of that name. */
  function IfNamed(cfg: Config, sl: Limits, a: Name, names: seq<Name>, st: Acc, username: Name, level: int,
                     start: int): Outcome
  {
    if a == username || username in names then DbctlRestrict(cfg, sl, st, level, start) else Outcome(st, [])
  }

  method RestrictHeld(cfg: Config, ac: Account, sl: Limits, username: Name, level: int, start: int, q: Commands,
                      ghost a: Name, ghost names: seq<Name>, ghost table: map<Name, User>, ghost st: Acc,
                      ghost o: Outcome)
    requires Holds(ac, a, names, table, st) && q.State().Valid()
    requires o == IfNamed(cfg, sl, a, names, st, username, level, start)
    modifies ac, q
    ensures Holds(ac, a, names, table, o.acc)
    ensures q.State() == old(q.State()).Append(BatchFor(cfg, names, o.out))
  {
    assert ac.UserNames() == names;
    ac.DbctlRestrictSet(cfg, sl, username, level, start, q);
  }

  /** What the analysing walk is given for an account: its limits and its clock readings. */
  datatype Input = Input(sl: Limits, r: Readings)

  /** In the middle of the analysing walk: todo holds the accounts not visited yet. */
  ghost predicate TickedBut(cfg: Config, inputs: Name -> Input, before: map<Name, Acc>, todo: set<Name>,
                            states: map<Name, Acc>)
  {
    && states.Keys == before.Keys
    && forall a :: a in states ==>
         states[a] == if a in todo then before[a] else Ticked(cfg, inputs(a).sl, before[a], inputs(a).r).acc
  }

  lemma TickedNext(cfg: Config, inputs: Name -> Input, before: map<Name, Acc>, todo: set<Name>,
                   states: map<Name, Acc>, a: Name)
    requires TickedBut(cfg, inputs, before, todo, states) && a in todo && a in states
    ensures a in before && states[a] == before[a]
    ensures TickedBut(cfg, inputs, before, todo - {a},
                      states[a := Ticked(cfg, inputs(a).sl, states[a], inputs(a).r).acc])
  {
  }

  ghost predicate AllIn(order: seq<Name>, states: map<Name, Acc>, members: map<Name, seq<Name>>)
  {
    forall a :: a in order ==> a in states && a in members
  }

  /** What the walk queues, account by account in the order of the walk. */
  ghost function Batches(cfg: Config, inputs: Name -> Input, states: map<Name, Acc>,
                         members: map<Name, seq<Name>>, order: seq<Name>): seq<Command>
    requires AllIn(order, states, members)
  {
    if order == [] then []
    else
      var a := order[|order| - 1];
      Batches(cfg, inputs, states, members, order[..|order| - 1])
      + BatchFor(cfg, members[a], Ticked(cfg, inputs(a).sl, states[a], inputs(a).r).out)
  }

  lemma BatchesNext(cfg: Config, inputs: Name -> Input, states: map<Name, Acc>, members: map<Name, seq<Name>>,
                    order: seq<Name>, a: Name)
    requires AllIn(order, states, members) && a in states && a in members
    ensures AllIn(order + [a], states, members)
    ensures Batches(cfg, inputs, states, members, order + [a])
            == Batches(cfg, inputs, states, members, order)
               + BatchFor(cfg, members[a], Ticked(cfg, inputs(a).sl, states[a], inputs(a).r).out)
  {
    assert (order + [a])[..|order|] == order;
  }

  lemma AppendTwice(q: Queue, first: seq<Command>, second: seq<Command>)
    ensures q.Append(first).Append(second) == q.Append(first + second)
  {
    assert Nodes(first + second) == Nodes(first) + Nodes(second);
  }

  /** The accounts visited so far, each once. */
  ghost predicate Visited(order: seq<Name>, todo: set<Name>, all: set<Name>) {
    NoDuplicates(order) && NamesIn(order) == all - todo
  }

  lemma VisitedNext(order: seq<Name>, todo: set<Name>, all: set<Name>, a: Name)
    requires Visited(order, todo, all) && a in todo && todo <= all
    ensures Visited(order + [a], todo - {a}, all)
  {
    assert a !in NamesIn(order);
    forall b | b in order + [a] ensures b in all && b !in todo - {a} {
      assert b != a ==> b in NamesIn(order);
    }
    forall b | b in all - (todo - {a}) ensures b in order + [a] {
      assert b != a ==> b in NamesIn(order);
    }
  }

  class AccountTable {
    var accounts: map<Name, Account>
    ghost var members: map<Name, seq<Name>>
    ghost var states: map<Name, Acc>

    ghost predicate Valid(table: map<Name, User>)
      reads this, accounts.Values
    {
      && members.Keys == states.Keys == accounts.Keys
      && forall a :: a in accounts ==> Holds(accounts[a], a, members[a], table, states[a])
    }

    /** What other tables do leaves this one valid. */
    twostate lemma Kept(table: map<Name, User>)
      requires old(Valid(table)) && unchanged(this) && unchanged(old(accounts.Values))
      ensures Valid(table)
    {
    }

    constructor ()
      ensures accounts == map[] && members == map[] && states == map[]
    {
      accounts, members, states := map[], map[], map[];
    }

    /** The account of that name, made if there is none yet. */
    method Lookup(a: Name, ghost table: map<Name, User>) returns (ac: Account)
      requires Valid(table)
      modifies this
      ensures Valid(table) && a in accounts && ac == accounts[a]
      ensures if a in old(accounts) then accounts == old(accounts) else accounts == old(accounts)[a := ac] && fresh(ac)
      ensures members == WithMembers(old(members), a) && states == WithState(old(states), a)
    {
      if a !in accounts {
        ac := new Account(a);
        accounts := accounts[a := ac];
        members := members[a := []];
        states := states[a := FRESH];
      } else {
        ac := accounts[a];
      }
    }

    /** The user's object joins the array of its account. */
    method AddUser(a: Name, n: Name, u: User, ghost table: map<Name, User>) returns (ac: Account)
      requires Valid(table) && n !in table && u.id == n
      modifies this, accounts.Values
      ensures Valid(table[n := u])
      ensures if a in old(accounts) then accounts == old(accounts) else accounts == old(accounts)[a := ac] && fresh(ac)
      ensures members == Joined(old(members), a, n)
      ensures states == WithState(old(states), a)
    {
      ac := Lookup(a, table);
      JoinedLate(old(members), old(states), a, n);
      Join(a, n, ac, u, table);
    }

    method Join(ghost a: Name, n: Name, ac: Account, u: User, ghost table: map<Name, User>)
      requires Valid(table) && n !in table && u.id == n && a in accounts && ac == accounts[a]
      modifies `members, `states, ac`users
      ensures Valid(table[n := u])
      ensures members == old(members)[a := old(members)[a] + [n]] && states == old(states)[a := old(states)[a]]
    {
      Enlist(ac, u, a, members[a], table, n, states[a]);
      forall b | b in accounts && b != a ensures Holds(accounts[b], b, members[b], table[n := u], states[b]) {
        HoldsMore(accounts[b], b, members[b], table, n, u, states[b]);
      }
      Note(a, members[a] + [n], states[a], table[n := u]);
    }

    ghost method Note(a: Name, names: seq<Name>, st: Acc, table: map<Name, User>)
      requires members.Keys == states.Keys == accounts.Keys && a in accounts
      requires forall b :: b in accounts && b != a ==> Holds(accounts[b], b, members[b], table, states[b])
      requires Holds(accounts[a], a, names, table, st)
      modifies `members, `states
      ensures Valid(table) && members == old(members)[a := names] && states == old(states)[a := st]
    {
      ghost var t, ms, ss := accounts, members, states;
      members := members[a := names];
      states := states[a := st];
      assert Holds(t[a], a, names, table, st);
      forall b | b in t && b != a ensures Holds(t[b], b, members[b], table, states[b]) {
        assert members[b] == ms[b] && states[b] == ss[b];
      }
    }

    /** No account is an object of the users' table. */
    ghost predicate Apart(users: UserTable)
      reads this, users
    {
      this !in users.repr && accounts.Values !! users.repr
    }

    method SetUsage(a: Name, ghost parts: seq<Usage>, ghost table: map<Name, User>)
      requires Valid(table) && a in accounts && members[a] != [] && Contribute(accounts[a].users, parts)
      modifies accounts[a], `members, `states
      ensures Valid(table) && members == old(members)
      ensures states == old(states)[a := old(states)[a].(usage := SumUsages(parts))]
    {
      ghost var names, st := members[a], states[a];
      SumUp(accounts[a], parts, a, names, table, st);
      Note(a, names, st.(usage := SumUsages(parts)), table);
    }

    /** calc_acc_stats on one account. */
    method CalcAccStats(cfg: Config, a: Name, users: UserTable, ghost part: map<Name, Usage>)
      requires Intervals(cfg) && users.Valid(cfg) && Valid(users.table) && Apart(users)
      requires part == PartMap(cfg, users.records)
      requires a in accounts && members[a] != [] && forall n :: n in members[a] ==> n in part
      modifies accounts[a], `members, `states
      ensures users.Valid(cfg) && Valid(users.table) && members == old(members)
      ensures states == old(states)[a := Summed(old(states)[a], members[a], part)]
    {
      ghost var parts := PartsOf(cfg, accounts[a], users, a, members[a], states[a]);
      label before:
      SetUsage(a, parts, users.table);
      users.Kept@before(cfg);
    }

    /** calc_acc_stats over the whole table. */
    method CalcAccounts(cfg: Config, users: UserTable, ghost part: map<Name, Usage>)
      requires Intervals(cfg) && users.Valid(cfg) && Valid(users.table) && Apart(users)
      requires part == PartMap(cfg, users.records) && Peopled(members, part.Keys)
      modifies accounts.Values, `members, `states
      ensures users.Valid(cfg) && Valid(users.table) && members == old(members)
      ensures SummedBut(old(states), members, part, {}, states)
    {
      var todo := accounts.Keys;
      ghost var before := states;
      while todo != {}
        invariant users.Valid(cfg) && Valid(users.table) && members == old(members) && todo <= accounts.Keys
        invariant SummedBut(before, members, part, todo, states)
      {
        var a :| a in todo;
        CalcNext(cfg, users, a, before, part, todo);
        todo := todo - {a};
      }
    }

    method CalcNext(cfg: Config, users: UserTable, a: Name, ghost before: map<Name, Acc>,
                    ghost part: map<Name, Usage>, ghost todo: set<Name>)
      requires Intervals(cfg) && users.Valid(cfg) && Valid(users.table) && Apart(users)
      requires a in accounts && a in todo && part == PartMap(cfg, users.records)
      requires SummedBut(before, members, part, todo, states)
      modifies accounts[a], `members, `states
      ensures users.Valid(cfg) && Valid(users.table) && members == old(members)
      ensures SummedBut(before, members, part, todo - {a}, states)
    {
      SummedNext(before, members, part, todo, states, a);
      CalcAccStats(cfg, a, users, part);
    }

    method AnalyzeAccount(cfg: Config, a: Name, sl: Limits, r: Readings, q: Commands, ghost table: map<Name, User>)
      requires Valid(table) && a in accounts && q.State().Valid()
      modifies accounts[a], `members, `states, q
      ensures Valid(table) && members == old(members)
      ensures states == old(states)[a := Ticked(cfg, sl, old(states)[a], r).acc]
      ensures q.State() == old(q.State()).Append(BatchFor(cfg, members[a], Ticked(cfg, sl, old(states)[a], r).out))
    {
      ghost var names, st := members[a], states[a];
      AnalyzeHeld(cfg, accounts[a], sl, r, q, a, names, table, st);
      Note(a, names, Ticked(cfg, sl, st, r).acc, table);
    }

    method AnalyzeNext(cfg: Config, inputs: Name -> Input, a: Name, q: Commands, ghost table: map<Name, User>,
                       ghost before: map<Name, Acc>, ghost todo: set<Name>, ghost order: seq<Name>, ghost start: Queue)
      requires Valid(table) && q.State().Valid() && a in accounts && a in todo
      requires TickedBut(cfg, inputs, before, todo, states) && AllIn(order, before, members)
      requires q.State() == start.Append(Batches(cfg, inputs, before, members, order))
      modifies accounts[a], `members, `states, q
      ensures Valid(table) && members == old(members)
      ensures TickedBut(cfg, inputs, before, todo - {a}, states) && AllIn(order + [a], before, members)
      ensures q.State() == start.Append(Batches(cfg, inputs, before, members, order + [a]))
    {
      TickedNext(cfg, inputs, before, todo, states, a);
      BatchesNext(cfg, inputs, before, members, order, a);
      AppendTwice(start, Batches(cfg, inputs, before, members, order),
                  BatchFor(cfg, members[a], Ticked(cfg, inputs(a).sl, states[a], inputs(a).r).out));
      AnalyzeAccount(cfg, a, inputs(a).sl, inputs(a).r, q, table);
    }

    /** account_analyze or account_analyze_limit over the whole table, in the order that comes back. */
    method AnalyzeAccounts(cfg: Config, inputs: Name -> Input, q: Commands, ghost table: map<Name, User>)
      returns (ghost order: seq<Name>)
      requires Valid(table) && q.State().Valid()
      modifies accounts.Values, `members, `states, q
      ensures Valid(table) && members == old(members)
      ensures TickedBut(cfg, inputs, old(states), {}, states)
      ensures Visited(order, {}, members.Keys) && AllIn(order, old(states), members)
      ensures q.State() == old(q.State()).Append(Batches(cfg, inputs, old(states), members, order))
    {
      var todo := accounts.Keys;
      ghost var before, start := states, q.State();
      order := [];
      AppendNothing(q.State());
      while todo != {}
        invariant Valid(table) && members == old(members) && todo <= accounts.Keys && q.State().Valid()
        invariant TickedBut(cfg, inputs, before, todo, states)
        invariant Visited(order, todo, members.Keys) && AllIn(order, before, members)
        invariant q.State() == start.Append(Batches(cfg, inputs, before, members, order))
      {
        var a :| a in todo;
        VisitedNext(order, todo, members.Keys, a);
        AnalyzeNext(cfg, inputs, a, q, table, before, todo, order, start);
        order := order + [a];
        todo := todo - {a};
      }
    }

    /** dbctl_restrict_set on one account of the table. */
    method RestrictAccount(cfg: Config, a: Name, sl: Limits, username: Name, level: int, start: int, q: Commands,
                           ghost table: map<Name, User>, ghost o: Outcome)
      requires Valid(table) && a in accounts && q.State().Valid()
      requires o == IfNamed(cfg, sl, a, members[a], states[a], username, level, start)
      modifies accounts[a], `members, `states, q
      ensures Valid(table) && members == old(members)
      ensures states == old(states)[a := o.acc]
      ensures q.State() == old(q.State()).Append(BatchFor(cfg, members[a], o.out))
    {
      ghost var names, st := members[a], states[a];
      RestrictHeld(cfg, accounts[a], sl, username, level, start, q, a, names, table, st, o);
      Note(a, names, o.acc, table);
    }
  }
}
