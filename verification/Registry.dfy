/** Which users belong to which account, what a tick records for them, and the sums over both, on values
    (src/user_account.c, src/calc_stats.c). */
module Registry {
  import opened Data
  import opened FifoStats
  import opened UserStats
  import opened Restriction
  import opened Accounts
  import UserMap

  /** What decides to which account a user name belongs: whether the configured limit is one for
      accounts, what the dbuser map answers, and the separator of the names. */
  datatype Naming = Naming(accountFlag: bool, mapped: Option<Name>, separator: char)

  /** strchr; None when the character does not occur. */
  function IndexOf(s: string, c: char): (index: Option<nat>)
    ensures index.Some? ==> index.value < |s| && s[index.value] == c && c !in s[..index.value]
    ensures index.None? ==> c !in s
  {
    if s == [] then None
    else if s[0] == c then Some(0)
    else
      var rest := IndexOf(s[1..], c);
      assert s == [s[0]] + s[1..];
      if rest.None? then None
      else
        assert s[..rest.value + 1] == [s[0]] + s[1..][..rest.value];
        Some(rest.value + 1)
  }

  function AccountName(username: Name, how: Naming): Name {
    if !how.accountFlag then username
    else if how.mapped.Some? then how.mapped.value
    else
      var at := IndexOf(username, how.separator);
      if at.None? || at.value == 0 then username else username[..at.value]
  }

  /** Which account a user belongs to: the one the dbuser map answers, otherwise the nonempty part of its name
      in front of the first separator, otherwise the name itself. */
  ghost predicate BelongsTo(username: Name, how: Naming, account: Name) {
    if !how.accountFlag then account == username
    else if how.mapped.Some? then account == how.mapped.value
    else if how.separator in username && username[0] != how.separator then
      account != "" && how.separator !in account && account + [how.separator] <= username
    else account == username
  }

  lemma AccountNameBelongs(username: Name, how: Naming, account: Name)
    ensures BelongsTo(username, how, account) <==> account == AccountName(username, how)
  {
    var at := IndexOf(username, how.separator);
    if at.Some? {
      assert username[..at.value + 1] == username[..at.value] + [how.separator];
      if account + [how.separator] <= username && how.separator !in account {
        PrefixLength(username, account, how.separator, at.value);
      }
    }
  }

  lemma PrefixLength(username: string, account: string, c: char, at: nat)
    requires at < |username| && username[at] == c && c !in username[..at]
    requires account + [c] <= username && c !in account
    ensures account == username[..at]
  {
    assert username[|account|] == (account + [c])[|account|] == c;
    assert account == username[..|account|] by {
      assert forall k :: 0 <= k < |account| ==> username[k] == (account + [c])[k];
    }
    assert forall k :: 0 <= k < at ==> username[k] == username[..at][k];
  }

  /** get_user_account: the account of every name asked for so far. The first answer is kept, so that
      later changes of the map or the configuration do not move a user. */
  function GetUserAccount(table: map<Name, Name>, username: Name, how: Naming): (table': map<Name, Name>)
    ensures username in table' && forall n :: n in table ==> n in table' && table'[n] == table[n]
  {
    if username in table then table else table[username := AccountName(username, how)]
  }

  // ----- Who belongs where, on names -----

  ghost predicate NoDuplicates(names: seq<Name>) {
    forall i, j :: 0 <= i < j < |names| ==> names[i] != names[j]
  }

  ghost predicate Member(members: map<Name, seq<Name>>, table: map<Name, Name>, n: Name) {
    n in table && table[n] in members && n in members[table[n]]
  }

  ghost predicate Filled(members: map<Name, seq<Name>>, names: set<Name>, table: map<Name, Name>, a: Name)
    requires a in members
  {
    && members[a] != [] && NoDuplicates(members[a])
    && forall n :: n in members[a] ==> n in names && n in table && table[n] == a
  }

  /** Every user sits exactly once in exactly one account's array, that of its own account, and every
      account has users. */
  ghost predicate Partition(members: map<Name, seq<Name>>, names: set<Name>, table: map<Name, Name>) {
    && (forall n :: n in names ==> Member(members, table, n))
    && (forall a :: a in members ==> Filled(members, names, table, a))
  }

  /** The arrays after a user was appended to its account's array, a new one if need be. */
  function Joined(members: map<Name, seq<Name>>, a: Name, n: Name): map<Name, seq<Name>> {
    members[a := (if a in members then members[a] else []) + [n]]
  }

  lemma JoinKeepsPartition(members: map<Name, seq<Name>>, names: set<Name>, table: map<Name, Name>,
                           table': map<Name, Name>, n: Name)
    requires Partition(members, names, table) && n !in names
    requires n in table' && forall m :: m in table ==> m in table' && table'[m] == table[m]
    ensures Partition(Joined(members, table'[n], n), names + {n}, table')
  {
    var a := table'[n];
    var joined := Joined(members, a, n);
    forall m | m in names + {n} ensures Member(joined, table', m) {
      if m != n {
        assert Member(members, table, m);
      } else {
        assert joined[a][|joined[a]| - 1] == n;
      }
    }
    forall b | b in joined ensures Filled(joined, names + {n}, table', b) {
      if b in members {
        assert Filled(members, names, table, b);
        assert n !in members[b];
      }
    }
  }

  /** The tables of names: the accounts' arrays, the users, and the account remembered for a user. */
  datatype Book = Book(members: map<Name, seq<Name>>, names: set<Name>, table: map<Name, Name>)

  /** The tables after users became known one after the other, each under the naming of its time; a
      user that is known already, or whose account is remembered already, keeps it. */
  function Known(arrivals: seq<(Name, Naming)>): Book {
    if arrivals == [] then Book(map[], {}, map[])
    else
      var b := Known(arrivals[..|arrivals| - 1]);
      var (n, how) := arrivals[|arrivals| - 1];
      if n in b.names then b
      else
        var table := GetUserAccount(b.table, n, how);
        Book(Joined(b.members, table[n], n), b.names + {n}, table)
  }

  /** In every reachable state each user is in exactly one array, once, and no account is empty,
      however the configuration and the map changed meanwhile. */
  lemma {:induction false} AlwaysPartitioned(arrivals: seq<(Name, Naming)>)
    ensures var b := Known(arrivals); Partition(b.members, b.names, b.table)
    ensures forall n :: n in Known(arrivals).names <==> Arrived(arrivals, n)
  {
    if arrivals != [] {
      var prefix, last := arrivals[..|arrivals| - 1], arrivals[|arrivals| - 1];
      AlwaysPartitioned(prefix);
      var b := Known(prefix);
      if last.0 !in b.names {
        JoinKeepsPartition(b.members, b.names, b.table, Known(arrivals).table, last.0);
      }
      forall n ensures Arrived(arrivals, n) <==> Arrived(prefix, n) || n == last.0 {
        ArrivedLast(arrivals, n);
      }
    }
  }

  ghost predicate Arrived(arrivals: seq<(Name, Naming)>, n: Name) {
    exists i :: 0 <= i < |arrivals| && arrivals[i].0 == n
  }

  lemma ArrivedLast(arrivals: seq<(Name, Naming)>, n: Name)
    requires arrivals != []
    ensures var k := |arrivals| - 1; Arrived(arrivals, n) <==> Arrived(arrivals[..k], n) || n == arrivals[k].0
  {
    var prefix := arrivals[..|arrivals| - 1];
    if Arrived(prefix, n) {
      var i :| 0 <= i < |prefix| && prefix[i].0 == n;
      assert arrivals[i].0 == n;
    }
    if Arrived(arrivals, n) {
      var i :| 0 <= i < |arrivals| && arrivals[i].0 == n;
      assert i < |prefix| ==> prefix[i].0 == n;
    }
  }

  /** The first time that user arrives. */
  ghost predicate First(arrivals: seq<(Name, Naming)>, i: nat) {
    i < |arrivals| && forall j :: 0 <= j < i ==> arrivals[j].0 != arrivals[i].0
  }

  lemma {:induction false} RememberedAreKnown(arrivals: seq<(Name, Naming)>)
    ensures Known(arrivals).table.Keys == Known(arrivals).names
  {
    if arrivals != [] {
      RememberedAreKnown(arrivals[..|arrivals| - 1]);
    }
  }

  /** A user belongs for ever to the account that its first arrival says. */
  lemma {:induction false} FirstAnswerDecides(arrivals: seq<(Name, Naming)>, i: nat)
    requires First(arrivals, i)
    ensures var (n, how) := arrivals[i]; var b := Known(arrivals);
            n in b.names && n in b.table && BelongsTo(n, how, b.table[n])
    decreases |arrivals|
  {
    var k := |arrivals| - 1;
    if i < k {
      assert arrivals[..k][i] == arrivals[i];
      FirstAnswerDecides(arrivals[..k], i);
      KnownStays(arrivals, arrivals[i].0);
    } else {
      NewcomerBelongs(arrivals);
    }
  }

  lemma KnownStays(arrivals: seq<(Name, Naming)>, n: Name)
    requires arrivals != []
    requires var b := Known(arrivals[..|arrivals| - 1]); n in b.names && n in b.table
    ensures var before, b := Known(arrivals[..|arrivals| - 1]), Known(arrivals);
            n in b.names && n in b.table && b.table[n] == before.table[n]
  {
  }

  lemma NewcomerBelongs(arrivals: seq<(Name, Naming)>)
    requires arrivals != [] && First(arrivals, |arrivals| - 1)
    ensures var (n, how) := arrivals[|arrivals| - 1]; var b := Known(arrivals);
            n in b.names && n in b.table && BelongsTo(n, how, b.table[n])
  {
    var prefix := arrivals[..|arrivals| - 1];
    var (n, how) := arrivals[|arrivals| - 1];
    AlwaysPartitioned(prefix);
    RememberedAreKnown(prefix);
    assert !Arrived(prefix, n);
    AccountNameBelongs(n, how, AccountName(n, how));
  }

  /** Users for whom the dbuser map answered the same account when they first arrived sit together in the
      array of that account. */
  lemma SameAnswerSameArray(arrivals: seq<(Name, Naming)>, i: nat, j: nat, account: Name)
    requires First(arrivals, i) && First(arrivals, j)
    requires arrivals[i].1.accountFlag && arrivals[i].1.mapped == Some(account)
    requires arrivals[j].1.accountFlag && arrivals[j].1.mapped == Some(account)
    ensures var b := Known(arrivals);
            account in b.members && arrivals[i].0 in b.members[account] && arrivals[j].0 in b.members[account]
  {
    var b := Known(arrivals);
    FirstAnswerDecides(arrivals, i);
    FirstAnswerDecides(arrivals, j);
    AlwaysPartitioned(arrivals);
    assert Member(b.members, b.table, arrivals[i].0) && Member(b.members, b.table, arrivals[j].0);
  }

  /** Without an answer, users whose names begin with the same part up to the separator sit together. */
  lemma SamePrefixSameArray(arrivals: seq<(Name, Naming)>, i: nat, j: nat, account: Name, c: char)
    requires First(arrivals, i) && First(arrivals, j) && account != "" && c !in account
    requires arrivals[i].1 == arrivals[j].1 == Naming(true, None, c)
    requires account + [c] <= arrivals[i].0 && account + [c] <= arrivals[j].0
    ensures var b := Known(arrivals);
            account in b.members && arrivals[i].0 in b.members[account] && arrivals[j].0 in b.members[account]
  {
    var b := Known(arrivals);
    FirstAnswerDecides(arrivals, i);
    FirstAnswerDecides(arrivals, j);
    PrefixBelongs(arrivals[i].0, account, c);
    PrefixBelongs(arrivals[j].0, account, c);
    AlwaysPartitioned(arrivals);
    assert Member(b.members, b.table, arrivals[i].0) && Member(b.members, b.table, arrivals[j].0);
  }

  lemma PrefixBelongs(username: Name, account: Name, c: char)
    requires account != "" && c !in account && account + [c] <= username
    ensures forall a: Name :: BelongsTo(username, Naming(true, None, c), a) <==> a == account
  {
    assert username[|account|] == (account + [c])[|account|] == c;
    assert username[0] == (account + [c])[0] == account[0];
    forall a: Name ensures BelongsTo(username, Naming(true, None, c), a) <==> a == account {
      AccountNameBelongs(username, Naming(true, None, c), a);
      AccountNameBelongs(username, Naming(true, None, c), account);
    }
  }

  ghost predicate Before(users: seq<Name>, n: Name, m: Name) {
    exists p, q :: 0 <= p < q < |users| && users[p] == n && users[q] == m
  }

  /** Users of one account stand in its array in the order of their first arrivals. */
  lemma {:induction false} ArrivalOrder(arrivals: seq<(Name, Naming)>, i: nat, j: nat)
    requires First(arrivals, i) && First(arrivals, j) && i < j
    requires var b := Known(arrivals);
             && arrivals[i].0 in b.table && arrivals[j].0 in b.table
             && b.table[arrivals[i].0] == b.table[arrivals[j].0]
    ensures var b := Known(arrivals);
            var a := b.table[arrivals[i].0];
            a in b.members && Before(b.members[a], arrivals[i].0, arrivals[j].0)
    decreases |arrivals|
  {
    var k := |arrivals| - 1;
    var prefix := arrivals[..k];
    assert prefix[i] == arrivals[i];
    FirstAnswerDecides(prefix, i);
    AlwaysPartitioned(prefix);
    var before, b := Known(prefix), Known(arrivals);
    KnownStays(arrivals, arrivals[i].0);
    if j < k {
      assert prefix[j] == arrivals[j];
      FirstAnswerDecides(prefix, j);
      KnownStays(arrivals, arrivals[j].0);
      ArrivalOrder(prefix, i, j);
      BeforeStays(arrivals, b.table[arrivals[i].0], arrivals[i].0, arrivals[j].0);
    } else {
      assert Member(before.members, before.table, arrivals[i].0);
      NewcomerIsLast(arrivals, arrivals[i].0);
    }
  }

  lemma BeforeStays(arrivals: seq<(Name, Naming)>, a: Name, n: Name, m: Name)
    requires arrivals != []
    requires var b := Known(arrivals[..|arrivals| - 1]); a in b.members && Before(b.members[a], n, m)
    ensures a in Known(arrivals).members && Before(Known(arrivals).members[a], n, m)
  {
    MembersGrow(arrivals, a);
    BeforeInMore(Known(arrivals[..|arrivals| - 1]).members[a], Known(arrivals).members[a], n, m);
  }

  lemma MembersGrow(arrivals: seq<(Name, Naming)>, a: Name)
    requires arrivals != [] && a in Known(arrivals[..|arrivals| - 1]).members
    ensures a in Known(arrivals).members
    ensures Known(arrivals[..|arrivals| - 1]).members[a] <= Known(arrivals).members[a]
  {
  }

  lemma BeforeInMore(users: seq<Name>, more: seq<Name>, n: Name, m: Name)
    requires users <= more && Before(users, n, m)
    ensures Before(more, n, m)
  {
    var p, q :| 0 <= p < q < |users| && users[p] == n && users[q] == m;
    assert more[p] == n && more[q] == m;
  }

  lemma NewcomerIsLast(arrivals: seq<(Name, Naming)>, n: Name)
    requires arrivals != [] && First(arrivals, |arrivals| - 1)
    requires var before, b := Known(arrivals[..|arrivals| - 1]), Known(arrivals);
             var m := arrivals[|arrivals| - 1].0;
             && m in b.table && b.table[m] in before.members && n in before.members[b.table[m]]
    ensures var b := Known(arrivals);
            var m := arrivals[|arrivals| - 1].0;
            b.table[m] in b.members && Before(b.members[b.table[m]], n, m)
  {
    var prefix := arrivals[..|arrivals| - 1];
    var before, b := Known(prefix), Known(arrivals);
    var m := arrivals[|arrivals| - 1].0;
    AlwaysPartitioned(prefix);
    assert !Arrived(prefix, m);
    var users := before.members[b.table[m]];
    var p :| 0 <= p < |users| && users[p] == n;
    assert b.members[b.table[m]] == users + [m];
    assert (users + [m])[p] == n && (users + [m])[|users|] == m;
  }

  // ----- The answers of a dbuser map -----

  /** What get_account answers, in a buffer for names. */
  function AnswerOf(d: UserMap.DbUserMap, username: Name): Option<Name>
    reads d
  {
    var account := d.GetAccount(username);
    if account.Some? && IsName(account.value) then Some(account.value) else None
  }

  /** Two users whose first usable rows in the map file name the same account, and who first arrive while
      that file is the map, sit in the same array, the one of that account. */
  lemma SameRowAccountSameArray(d: UserMap.DbUserMap, rows: seq<UserMap.Row>, separateLve: bool, account: Name,
                                arrivals: seq<(Name, Naming)>, i: nat, j: nat)
    requires UserMap.AllValid(rows) && d.userMap == UserMap.ParseFile(UserMap.PrintRows(rows), separateLve)
    requires First(arrivals, i) && arrivals[i].1.accountFlag && arrivals[i].1.mapped == AnswerOf(d, arrivals[i].0)
    requires First(arrivals, j) && arrivals[j].1.accountFlag && arrivals[j].1.mapped == AnswerOf(d, arrivals[j].0)
    requires var one, two := UserMap.FirstRow(rows, arrivals[i].0, separateLve),
                             UserMap.FirstRow(rows, arrivals[j].0, separateLve);
             one.Some? && two.Some? && one.value.account == two.value.account == account
    ensures var b := Known(arrivals);
            account in b.members && arrivals[i].0 in b.members[account] && arrivals[j].0 in b.members[account]
  {
    UserMap.LookupsFindFirstRow(d, rows, separateLve, arrivals[i].0);
    UserMap.LookupsFindFirstRow(d, rows, separateLve, arrivals[j].0);
    SameAnswerSameArray(arrivals, i, j, account);
  }

  // ----- User records and their sums -----

  /** What a User object stands for: when it was last given a sample, and every sample it was given. */
  datatype Record = Record(tick: nat, hist: seq<Stats>)

  function Parts(names: seq<Name>, part: map<Name, Usage>): seq<Usage>
    requires forall n :: n in names ==> n in part
  {
    seq(|names|, i requires 0 <= i < |names| => part[names[i]])
  }

  /** The sum over a set of names, in no particular order. */
  ghost function SumOver(names: set<Name>, part: map<Name, Usage>): Usage
    requires names <= part.Keys
  {
    if names == {} then NO_USAGE
    else
      var n :| n in names;
      SumOver(names - {n}, part).Plus(part[n])
  }

  lemma PlusCommutes(a: Usage, b: Usage, c: Usage)
    ensures a.Plus(b).Plus(c) == a.Plus(c).Plus(b)
    ensures a.Plus(b.Plus(c)) == a.Plus(b).Plus(c)
    ensures a.Plus(NO_USAGE) == a
  {
  }

  lemma PlusNothing(a: Usage, b: Usage)
    requires b == NO_USAGE
    ensures a.Plus(b) == a
  {
  }

  lemma {:induction false} SumOverRemove(names: set<Name>, part: map<Name, Usage>, n: Name)
    requires names <= part.Keys && n in names
    ensures SumOver(names, part) == SumOver(names - {n}, part).Plus(part[n])
  {
    var m :| m in names && SumOver(names, part) == SumOver(names - {m}, part).Plus(part[m]);
    if m != n {
      SumOverRemove(names - {m}, part, n);
      SumOverRemove(names - {n}, part, m);
      assert names - {m} - {n} == names - {n} - {m};
      PlusCommutes(SumOver(names - {m} - {n}, part), part[m], part[n]);
    }
  }

  function NamesIn(names: seq<Name>): set<Name> {
    set n | n in names
  }

  lemma PartsLast(names: seq<Name>, part: map<Name, Usage>)
    requires names != [] && forall n :: n in names ==> n in part
    ensures SumUsages(Parts(names, part))
            == SumUsages(Parts(names[..|names| - 1], part)).Plus(part[names[|names| - 1]])
  {
    assert Parts(names, part)[..|names| - 1] == Parts(names[..|names| - 1], part);
  }

  lemma NamesInLast(names: seq<Name>)
    requires names != [] && NoDuplicates(names)
    ensures NoDuplicates(names[..|names| - 1])
    ensures NamesIn(names) == NamesIn(names[..|names| - 1]) + {names[|names| - 1]}
    ensures names[|names| - 1] !in NamesIn(names[..|names| - 1])
  {
    assert names == names[..|names| - 1] + [names[|names| - 1]];
  }

  lemma OneMoreUser(names: set<Name>, users: seq<Name>, part: map<Name, Usage>)
    requires users != [] && NoDuplicates(users) && names !! NamesIn(users)
    requires names + NamesIn(users) <= part.Keys
    requires forall n :: n in users ==> n in part
    requires var init := users[..|users| - 1];
             && names + NamesIn(init) <= part.Keys
             && SumOver(names + NamesIn(init), part) == SumOver(names, part).Plus(SumUsages(Parts(init, part)))
    ensures SumOver(names + NamesIn(users), part) == SumOver(names, part).Plus(SumUsages(Parts(users, part)))
  {
    var init, last := users[..|users| - 1], users[|users| - 1];
    NamesInLast(users);
    assert (names + NamesIn(users)) - {last} == names + NamesIn(init);
    SumOverRemove(names + NamesIn(users), part, last);
    PartsLast(users, part);
    PlusCommutes(SumOver(names, part), SumUsages(Parts(init, part)), part[last]);
  }

  /** Adding an array of distinct new names adds the array's sum. */
  lemma {:induction false} SumOverArray(names: set<Name>, users: seq<Name>, part: map<Name, Usage>)
    requires NoDuplicates(users) && names !! NamesIn(users)
    requires names + NamesIn(users) <= part.Keys
    requires forall n :: n in users ==> n in part
    ensures SumOver(names + NamesIn(users), part) == SumOver(names, part).Plus(SumUsages(Parts(users, part)))
  {
    if users == [] {
      assert NamesIn(users) == {} && names + NamesIn(users) == names;
      assert Parts(users, part) == [] && SumUsages([]) == NO_USAGE;
      PlusNothing(SumOver(names, part), SumUsages(Parts(users, part)));
    } else {
      var init := users[..|users| - 1];
      NamesInLast(users);
      SumOverArray(names, init, part);
      OneMoreUser(names, users, part);
    }
  }

  /** The users of some accounts. */
  function UsersOf(some: set<Name>, members: map<Name, seq<Name>>): set<Name>
    requires some <= members.Keys
  {
    set a, n | a in some && n in members[a] :: n
  }

  ghost predicate SumsUp(members: map<Name, seq<Name>>, part: map<Name, Usage>, usage: map<Name, Usage>) {
    && usage.Keys == members.Keys
    && forall a :: a in members ==>
         (forall n :: n in members[a] ==> n in part) && usage[a] == SumUsages(Parts(members[a], part))
  }

  lemma {:induction false} SumOverAccounts(some: set<Name>, members: map<Name, seq<Name>>, names: set<Name>,
                                           table: map<Name, Name>, part: map<Name, Usage>, usage: map<Name, Usage>)
    requires Partition(members, names, table) && names <= part.Keys && some <= members.Keys
    requires SumsUp(members, part, usage)
    ensures UsersOf(some, members) <= part.Keys
    ensures SumOver(some, usage) == SumOver(UsersOf(some, members), part)
  {
    if some != {} {
      var a :| a in some;
      var rest := some - {a};
      SumOverAccounts(rest, members, names, table, part, usage);
      assert Filled(members, names, table, a);
      forall n | n in UsersOf(rest, members) ensures n !in NamesIn(members[a]) {
        var b :| b in rest && n in members[b];
        assert Filled(members, names, table, b);
      }
      assert UsersOf(some, members) == UsersOf(rest, members) + NamesIn(members[a]);
      SumOverArray(UsersOf(rest, members), members[a], part);
      SumOverRemove(some, usage, a);
    }
  }

  /** Conservation: nothing is lost and nothing counted twice between users and accounts. */
  lemma AccountsConserve(members: map<Name, seq<Name>>, names: set<Name>, table: map<Name, Name>,
                         part: map<Name, Usage>, usage: map<Name, Usage>)
    requires Partition(members, names, table) && names <= part.Keys
    requires SumsUp(members, part, usage)
    ensures SumOver(members.Keys, usage) == SumOver(names, part)
  {
    SumOverAccounts(members.Keys, members, names, table, part, usage);
    forall n | n in names ensures n in UsersOf(members.Keys, members) {
      assert Member(members, table, n);
    }
    forall n | n in UsersOf(members.Keys, members) ensures n in names {
      var a :| a in members && n in members[a];
      assert Filled(members, names, table, a);
    }
    assert UsersOf(members.Keys, members) == names;
  }

  /** Hence in every reachable state the accounts' totals are the users' totals, whatever the users consumed. */
  lemma AlwaysConserved(arrivals: seq<(Name, Naming)>, part: map<Name, Usage>, usage: map<Name, Usage>)
    requires Known(arrivals).names <= part.Keys
    requires SumsUp(Known(arrivals).members, part, usage)
    ensures SumOver(Known(arrivals).members.Keys, usage) == SumOver(Known(arrivals).names, part)
  {
    AlwaysPartitioned(arrivals);
    var b := Known(arrivals);
    AccountsConserve(b.members, b.names, b.table, part, usage);
  }

  /** What every user contributes to its account. */
  function PartMap(cfg: Config, users: map<Name, Record>): (part: map<Name, Usage>)
    requires Intervals(cfg)
    ensures part.Keys == users.Keys
  {
    map n | n in users :: ContributionOf(cfg, users[n].hist)
  }

  /** The same, of the histories alone. */
  function Contributions(cfg: Config, hists: map<Name, seq<Stats>>): map<Name, Usage>
    requires Intervals(cfg)
  {
    map n | n in hists :: ContributionOf(cfg, hists[n])
  }

  lemma PartMapOfHistories(cfg: Config, users: map<Name, Record>)
    requires Intervals(cfg)
    ensures PartMap(cfg, users) == Contributions(cfg, HistsOf(users))
  {
  }

  /** The record after a sample: refreshed within a tick, pushed in a new one. */
  function Sampled(us: Record, st: Stats, tickId: nat): Record {
    if us.tick == tickId then us.(hist := Refreshed(us.hist, st)) else Record(tickId, [st] + us.hist)
  }

  /** Two samples within one tick count as their sum, two samples of different ticks as two. */
  lemma TwoSamples(us: Record, x: Stats, y: Stats, tickId: nat, next: nat)
    requires us.tick != tickId && tickId != next
    ensures Sampled(Sampled(us, x, tickId), y, tickId) == Sampled(us, x.Plus(y), tickId)
    ensures Sampled(Sampled(us, x, tickId), y, next) == Record(next, [y, x] + us.hist)
  {
  }

  function Given(users: map<Name, Record>, n: Name, st: Stats, tickId: nat): map<Name, Record> {
    users[n := Sampled(if n in users then users[n] else Record(0, []), st, tickId)]
  }

  ghost predicate Older(before: map<Name, Record>, tickId: nat) {
    forall n :: n in before ==> before[n].tick < tickId
  }

  /** In the middle of the walk over the counters: todo holds the users not fed yet. */
  ghost predicate Halfway(before: map<Name, Record>, samples: map<Name, Stats>, todo: set<Name>, tickId: nat,
                          users: map<Name, Record>)
  {
    && users.Keys == before.Keys + (samples.Keys - todo)
    && (forall n :: n in before && (n in todo || n !in samples) ==> users[n] == before[n])
    && (forall n :: n in samples && n !in todo ==> users[n] == Record(tickId, [samples[n]] + HistoryOf(before, n)))
  }

  function HistoryOf(users: map<Name, Record>, n: Name): seq<Stats> {
    if n in users then users[n].hist else []
  }

  function HistsOf(users: map<Name, Record>): map<Name, seq<Stats>> {
    map n | n in users :: users[n].hist
  }

  lemma HalfwayNext(before: map<Name, Record>, samples: map<Name, Stats>, todo: set<Name>, tickId: nat,
                    users: map<Name, Record>, n: Name)
    requires Older(before, tickId) && 0 < tickId && todo <= samples.Keys && n in todo
    requires Halfway(before, samples, todo, tickId, users)
    ensures Halfway(before, samples, todo - {n}, tickId, Given(users, n, samples[n], tickId))
  {
  }

  /** tick_empty_users on one record. */
  function Topped(us: Record, tickId: nat): Record {
    if us.tick == tickId then us else Record(tickId, [ZERO_STATS] + us.hist)
  }

  /** In the middle of the walk over the users: todo holds those not visited yet. */
  ghost predicate ToppedBut(before: map<Name, Record>, todo: set<Name>, tickId: nat, users: map<Name, Record>) {
    && users.Keys == before.Keys
    && forall n :: n in users ==> users[n] == if n in todo then before[n] else Topped(before[n], tickId)
  }

  /** No user has a sample of a later tick. */
  ghost predicate NotAfter(users: map<Name, Record>, tickId: nat) {
    forall n :: n in users ==> users[n].tick <= tickId
  }

  lemma ToppedNotAfter(fed: map<Name, Record>, users: map<Name, Record>, tickId: nat)
    requires ToppedBut(fed, {}, tickId, users)
    ensures NotAfter(users, tickId)
  {
  }

  lemma AllRecorded(before: map<Name, Record>, samples: map<Name, Stats>, tickId: nat,
                    fed: map<Name, Record>, users: map<Name, Record>)
    requires Older(before, tickId) && Halfway(before, samples, {}, tickId, fed)
    requires ToppedBut(fed, {}, tickId, users)
    ensures HistsOf(users) == Recorded(HistsOf(before), samples)
  {
    forall n | n in users
      ensures users[n].hist == [SampleOf(samples, n)] + HistoryOf(before, n)
    {
      if n !in samples {
        assert fed[n] == before[n];
      }
    }
  }

  /** The records once a user is known. */
  function WithRecord(users: map<Name, Record>, n: Name): map<Name, Record> {
    if n in users then users else users[n := Record(0, [])]
  }

  /** Joining first and being given a sample then is being given it as a new user. */
  lemma GivenAnyway(users: map<Name, Record>, n: Name, st: Stats, tickId: nat)
    ensures var known := WithRecord(users, n);
            known[n := Sampled(known[n], st, tickId)] == Given(users, n, st, tickId)
  {
  }

  // ----- Ticks over whole runs -----

  datatype Event =
    | Tick(samples: map<Name, Stats>)     // the samples made from the counters of this tick
    | Know(username: Name)                // a user becomes known between ticks

  function WithHistory(hists: map<Name, seq<Stats>>, n: Name): map<Name, seq<Stats>> {
    if n in hists then hists else hists[n := []]
  }

  lemma KnownHistories(users: map<Name, Record>, n: Name, tickId: nat)
    ensures NotAfter(users, tickId) ==> NotAfter(WithRecord(users, n), tickId)
    ensures HistsOf(WithRecord(users, n)) == WithHistory(HistsOf(users), n)
  {
  }

  /** One sample for every user, zero for the idle ones. */
  function Recorded(hists: map<Name, seq<Stats>>, samples: map<Name, Stats>): map<Name, seq<Stats>> {
    map n | n in hists.Keys + samples.Keys ::
      [SampleOf(samples, n)] + if n in hists then hists[n] else []
  }

  function SampleOf(samples: map<Name, Stats>, n: Name): Stats {
    if n in samples then samples[n] else ZERO_STATS
  }

  function Histories(events: seq<Event>): map<Name, seq<Stats>> {
    if events == [] then map[]
    else
      var before := Histories(events[..|events| - 1]);
      match events[|events| - 1]
      case Tick(samples) => Recorded(before, samples)
      case Know(n) => WithHistory(before, n)
  }

  /** The samples maps of a run, newest first. */
  function TickSamples(events: seq<Event>): seq<map<Name, Stats>> {
    if events == [] then []
    else
      var e := events[|events| - 1];
      (if e.Tick? then [e.samples] else []) + TickSamples(events[..|events| - 1])
  }

  /** What the user consumed at the i-th last tick of the run; nothing before the run began. */
  function AtTick(ticks: seq<map<Name, Stats>>, n: Name, i: nat): Stats {
    if i < |ticks| then SampleOf(ticks[i], n) else ZERO_STATS
  }

  lemma {:induction false} UnknownIsIdle(events: seq<Event>, n: Name)
    requires n !in Histories(events)
    ensures forall i: nat :: AtTick(TickSamples(events), n, i) == ZERO_STATS
  {
    if events != [] {
      var prefix := events[..|events| - 1];
      UnknownIsIdle(prefix, n);
      forall i: nat ensures AtTick(TickSamples(events), n, i) == ZERO_STATS {
        if events[|events| - 1].Tick? && i > 0 {
          assert AtTick(TickSamples(prefix), n, i - 1) == ZERO_STATS;
        } else {
          assert AtTick(TickSamples(prefix), n, i) == ZERO_STATS;
        }
      }
    }
  }

  /** Whatever the run, and whenever a user became known, its ring of any size shows, newest first,
      what it consumed at the last ticks: one sample for each tick, idle ticks included. */
  lemma {:induction false} RingShowsRun(events: seq<Event>, n: Name, size: nat)
    requires n in Histories(events)
    ensures Newest(Histories(events)[n], size)
            == seq(size, i requires 0 <= i < size => AtTick(TickSamples(events), n, i))
  {
    forall i | 0 <= i < size
      ensures Newest(Histories(events)[n], size)[i] == AtTick(TickSamples(events), n, i)
    {
      HistoryAtTick(events, n, i);
    }
  }

  lemma AtTickStep(events: seq<Event>, n: Name, i: nat)
    requires events != []
    ensures var prefix, e := events[..|events| - 1], events[|events| - 1];
            AtTick(TickSamples(events), n, i)
            == if e.Know? then AtTick(TickSamples(prefix), n, i)
               else if i == 0 then SampleOf(e.samples, n)
               else AtTick(TickSamples(prefix), n, i - 1)
  {
  }

  function InHistory(hist: seq<Stats>, i: nat): Stats {
    if i < |hist| then hist[i] else ZERO_STATS
  }

  lemma HistoryStep(events: seq<Event>, n: Name, i: nat)
    requires events != [] && n in Histories(events)
    ensures var prefix, e := events[..|events| - 1], events[|events| - 1];
            var before := if n in Histories(prefix) then Histories(prefix)[n] else [];
            InHistory(Histories(events)[n], i)
            == if e.Know? then InHistory(before, i)
               else if i == 0 then SampleOf(e.samples, n)
               else InHistory(before, i - 1)
  {
  }

  lemma {:induction false} HistoryAtTick(events: seq<Event>, n: Name, i: nat)
    requires n in Histories(events)
    ensures AtTick(TickSamples(events), n, i) == InHistory(Histories(events)[n], i)
  {
    var prefix, e := events[..|events| - 1], events[|events| - 1];
    AtTickStep(events, n, i);
    HistoryStep(events, n, i);
    if e.Know? || 0 < i {
      var at := if e.Know? then i else i - 1;
      if n in Histories(prefix) {
        HistoryAtTick(prefix, n, at);
      } else {
        UnknownIsIdle(prefix, n);
        assert AtTick(TickSamples(prefix), n, at) == ZERO_STATS;
      }
    }
  }
}
