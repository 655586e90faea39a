/** The table of users: every user has an object with a ring of its own (src/calc_stats.c). */
module UserTables {
  import opened Data
  import opened UserStats
  import opened Accounts
  import opened Registry

  /** No two users share an object. */
  ghost predicate Separate(table: map<Name, User>) {
    forall m, n :: m in table && n in table && m != n ==> table[m].Repr() !! table[n].Repr()
  }

  lemma SeparateFrom(table: map<Name, User>, repr: set<object>, n: Name, u: User)
    requires Separate(table) && u.Repr() !! repr && forall m :: m in table ==> table[m].Repr() <= repr
    ensures Separate(table[n := u])
  {
  }

  /** Configurations that size the rings alike. */
  predicate SameIntervals(c: Config, cfg: Config) {
    c.intervalShort == cfg.intervalShort && c.intervalMid == cfg.intervalMid && c.intervalLong == cfg.intervalLong
  }

  /** The object stands for the record of the user of that name, whatever else is configured. */
  ghost predicate Stands(cfg: Config, u: User, n: Name, r: Record)
    reads u.Repr()
  {
    u.id == n && r == Record(u.tick, u.hist) && forall c :: SameIntervals(c, cfg) ==> u.Valid(c)
  }

  lemma StandsMeans(cfg: Config, u: User, n: Name, r: Record)
    requires Stands(cfg, u, n, r)
    ensures u.Valid(cfg) && u.id == n && r == Record(u.tick, u.hist)
  {
    assert SameIntervals(cfg, cfg);
  }

  lemma StandsFrom(cfg: Config, u: User, n: Name, r: Record)
    requires u.Valid(cfg) && u.id == n && r == Record(u.tick, u.hist)
    ensures Stands(cfg, u, n, r)
  {
  }

  /** The user's contribution to its account is that of its record. */
  lemma StandsContributes(cfg: Config, u: User, n: Name, r: Record)
    requires Intervals(cfg) && Stands(cfg, u, n, r)
    ensures u.stats.Valid() && Contribution(u) == ContributionOf(cfg, r.hist)
  {
    StandsMeans(cfg, u, n, r);
    ContributionIsOfHistory(cfg, u);
  }

  /** The second half of add_new_stats. */
  method GiveSample(cfg: Config, us: User, st: Stats, tickId: nat, ghost n: Name, ghost r: Record)
    requires Stands(cfg, us, n, r)
    modifies us.Repr()
    ensures Stands(cfg, us, n, Sampled(r, st, tickId))
  {
    StandsMeans(cfg, us, n, r);
    us.Sample(cfg, st, tickId);
    StandsFrom(cfg, us, n, Sampled(r, st, tickId));
  }

  class UserTable {
    var table: map<Name, User>
    ghost var records: map<Name, Record>     // what the objects stand for
    ghost var repr: set<object>

    ghost predicate Owned(cfg: Config, n: Name)
      requires n in table
      reads this, repr
    {
      table[n].Repr() <= repr && n in records && Stands(cfg, table[n], n, records[n])
    }

    ghost predicate Valid(cfg: Config)
      reads this, repr
    {
      && this !in repr
      && records.Keys == table.Keys
      && (forall n :: n in table ==> Owned(cfg, n))
      && Separate(table)
    }

    /** Nothing but the intervals matters. */
    lemma ValidAlike(cfg: Config, c: Config)
      requires Valid(cfg) && SameIntervals(c, cfg)
      ensures Valid(c)
    {
      forall n | n in table ensures Owned(c, n) {
        assert Owned(cfg, n);
      }
    }

    /** What other tables do leaves this one valid. */
    twostate lemma Kept(cfg: Config)
      requires old(Valid(cfg)) && unchanged(this) && unchanged(old(repr))
      ensures Valid(cfg)
    {
      forall n | n in table ensures Owned(cfg, n) {
        assert old(Owned(cfg, n));
      }
    }

    constructor (cfg: Config)
      ensures Valid(cfg) && table == map[] && records == map[] && repr == {}
    {
      table, records, repr := map[], map[], {};
    }

    /** A new user with an empty history. */
    method Add(cfg: Config, n: Name, account: Name) returns (u: User)
      requires Valid(cfg) && Intervals(cfg) && n !in table
      modifies this
      ensures Valid(cfg) && repr == old(repr) + u.Repr() && fresh(u.Repr()) && u.id == n && u.account == account
      ensures table == old(table)[n := u] && records == old(records)[n := Record(0, [])]
    {
      u := new User(cfg, n, account);
      StandsFrom(cfg, u, n, Record(0, []));
      Insert(cfg, n, u, Record(0, []));
    }

    method Insert(cfg: Config, n: Name, u: User, ghost r: Record)
      requires Valid(cfg) && n !in table
      requires Stands(cfg, u, n, r) && u.Repr() !! repr && this !in u.Repr()
      modifies this
      ensures Valid(cfg) && repr == old(repr) + u.Repr()
      ensures table == old(table)[n := u] && records == old(records)[n := r]
    {
      ghost var t, rs := table, records;
      forall m | m in t ensures t[m].Repr() <= repr && this !in t[m].Repr() && m in rs && Stands(cfg, t[m], m, rs[m]) {
        assert Owned(cfg, m);
      }
      SeparateFrom(table, repr, n, u);
      table := table[n := u];
      records := records[n := r];
      repr := repr + u.Repr();
      assert Stands(cfg, u, n, r);
      assert forall m :: m in t ==> Stands(cfg, t[m], m, rs[m]);
    }

    /** A sample for a known user; nobody else's ring is touched. */
    method Give(cfg: Config, n: Name, st: Stats, tickId: nat)
      requires Valid(cfg) && n in table
      modifies table[n].Repr(), `records
      ensures Valid(cfg)
      ensures records == old(records)[n := Sampled(old(records)[n], st, tickId)]
    {
      assert Owned(cfg, n);
      var us := table[n];
      GiveSample(cfg, us, st, tickId, n, records[n]);
      forall m | m in table && m != n ensures Owned(cfg, m) {
        assert table[m].Repr() !! us.Repr();
      }
      Note(cfg, n, Sampled(records[n], st, tickId));
    }

    ghost method Note(cfg: Config, n: Name, r: Record)
      requires this !in repr && n in table && records.Keys == table.Keys && Separate(table)
      requires forall m :: m in table && m != n ==> Owned(cfg, m)
      requires table[n].Repr() <= repr && Stands(cfg, table[n], n, r)
      modifies `records
      ensures Valid(cfg)
      ensures records == old(records)[n := r]
    {
      ghost var t, rs := table, records;
      forall m | m in t && m != n ensures this !in t[m].Repr() && Stands(cfg, t[m], m, rs[m]) {
        assert Owned(cfg, m);
      }
      records := records[n := r];
      assert Stands(cfg, t[n], n, r);
      assert forall m :: m in t && m != n ==> Stands(cfg, t[m], m, rs[m]);
    }

    lemma TickOf(cfg: Config, n: Name)
      requires Valid(cfg) && n in table
      ensures n in records && table[n].tick == records[n].tick && table[n].id == n && table[n].Repr() <= repr
    {
      assert Owned(cfg, n);
    }

    /** tick_empty_users: a user that got no sample in this tick gets a zero. */
    method TickEmptyUser(cfg: Config, n: Name, tickId: nat)
      requires Valid(cfg) && n in table
      modifies table[n].Repr(), `records
      ensures Valid(cfg) && n in old(records)
      ensures records == old(records)[n := Topped(old(records)[n], tickId)]
    {
      TickOf(cfg, n);
      if table[n].tick != tickId {
        Give(cfg, n, ZERO_STATS, tickId);
      }
    }

    /** The walk over the whole table. */
    method TickEmptyUsers(cfg: Config, tickId: nat)
      requires Valid(cfg)
      modifies repr, `records
      ensures Valid(cfg) && ToppedBut(old(records), {}, tickId, records)
    {
      var todo := table.Keys;
      ghost var before := records;
      while todo != {}
        invariant Valid(cfg) && todo <= table.Keys
        invariant ToppedBut(before, todo, tickId, records)
      {
        var n :| n in todo;
        TickOf(cfg, n);
        TickEmptyUser(cfg, n, tickId);
        todo := todo - {n};
      }
    }
  }
}
