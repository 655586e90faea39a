/** An account: the sum of its users' statistics, and its restriction (src/calc_stats.c, src/stats.c). */
module Accounts {
  import opened Data
  import opened FifoStats
  import opened UserStats
  import opened Restriction
  import opened CommandQueue

  lemma AppendNothing(q: Queue)
    ensures q.Append([]) == q
  {
    assert q.commandList + Nodes([]) == q.commandList;
  }

  lemma OneBatch(cfg: Config, users: seq<Name>, kind: Kind)
    ensures BatchFor(cfg, users, [kind])
            == match kind case FREEZE => FreezeBatch(cfg, users) case UNFREEZE => UnfreezeBatch(cfg, users)
  {
    assert [kind][1..] == [];
  }

  /** What a user contributes to its account: its newest sample and its three averages. */
  function Contribution(u: User): Usage
    requires u.stats.Valid()
    reads u, u.stats, u.stats.ar
  {
    Usage(u.stats.Get(0), u.shortAverage, u.midAverage, u.longAverage)
  }

  /** The same, of a sample history. */
  function ContributionOf(cfg: Config, hist: seq<Stats>): Usage
    requires Intervals(cfg)
  {
    Usage(Newest(hist, 1)[0], Mean(Newest(hist, cfg.intervalShort)), Mean(Newest(hist, cfg.intervalMid)),
          Mean(Newest(hist, cfg.intervalLong)))
  }

  lemma ContributionIsOfHistory(cfg: Config, u: User)
    requires u.Valid(cfg)
    ensures Contribution(u) == ContributionOf(cfg, u.hist)
  {
    NewestPrefix(u.hist, u.stats.size, 1);
  }

  /** The parts are the users' contributions, in order. */
  ghost predicate Contribute(users: seq<User>, parts: seq<Usage>)
    reads users, set u | u in users :: u.stats, set u | u in users :: u.stats.ar
  {
    |parts| == |users| &&
    forall i :: 0 <= i < |users| ==> users[i].stats.Valid() && parts[i] == Contribution(users[i])
  }

  lemma ContributeAt(users: seq<User>, parts: seq<Usage>, i: nat)
    requires Contribute(users, parts) && i < |users|
    ensures users[i].stats.Valid() && i < |parts| && parts[i] == Contribution(users[i])
  {
  }

  function Ids(users: seq<User>): (names: seq<Name>)
    ensures |names| == |users| && forall i :: 0 <= i < |users| ==> names[i] == users[i].id
  {
    seq(|users|, i requires 0 <= i < |users| => users[i].id)
  }

  class Account {
    const id: Name
    var users: seq<User>
    var current: Stats
    var shortAverage: Stats
    var midAverage: Stats
    var longAverage: Stats
    var restricted: int
    var timeout: int
    var startCount: int
    var fieldRestrict: Period
    var fieldLevelRestrict: Field

    ghost function ShownUsage(): Usage
      reads this
    {
      Usage(current, shortAverage, midAverage, longAverage)
    }

    ghost function State(): Acc
      reads this
    {
      Acc(ShownUsage(), restricted, timeout, startCount, fieldRestrict, fieldLevelRestrict)
    }

    function UserNames(): (names: seq<Name>)
      reads this`users
      ensures |names| == |users| && forall i :: 0 <= i < |users| ==> names[i] == users[i].id
    {
      Ids(users)
    }

    constructor (id: Name)
      ensures this.id == id && users == [] && State() == FRESH
    {
      this.id := id;
      users := [];
      current, shortAverage, midAverage, longAverage := ZERO_STATS, ZERO_STATS, ZERO_STATS, ZERO_STATS;
      restricted, timeout, startCount := 0, 0, 0;
      fieldRestrict, fieldLevelRestrict := NO_PERIOD, NORESTRICT_PARAM2;
    }

    method AddUser(us: User)
      modifies `users
      ensures users == old(users) + [us]
    {
      users := users + [us];
    }

    /** The usage becomes the sum over the users' contributions; the restriction is not touched. */
    method CalcAccStats(ghost parts: seq<Usage>)
      requires users != [] && Contribute(users, parts)
      modifies `current, `shortAverage, `midAverage, `longAverage
      ensures State() == old(State()).(usage := SumUsages(parts))
    {
      ContributeAt(users, parts, 0);
      StartFrom(users[0]);
      AddOthers(parts);
    }

    /** The loop over the users but the first. */
    method AddOthers(ghost parts: seq<Usage>)
      requires users != [] && Contribute(users, parts) && ShownUsage() == parts[0]
      modifies `current, `shortAverage, `midAverage, `longAverage
      ensures ShownUsage() == SumUsages(parts)
    {
      SumUsagesNext(parts, 0);
      var i := 1;
      while i < |users|
        invariant 1 <= i <= |users|
        invariant Contribute(users, parts)
        invariant ShownUsage() == SumUsages(parts[..i])
      {
        ContributeAt(users, parts, i);
        SumUsagesNext(parts, i);
        SumStats(users[i]);
        i := i + 1;
      }
      assert parts[..|users|] == parts;
    }

    method StartFrom(us: User)
      requires us.stats.Valid()
      modifies `current, `shortAverage, `midAverage, `longAverage
      ensures ShownUsage() == Contribution(us)
    {
      current := us.stats.Get(0);
      shortAverage, midAverage, longAverage := us.shortAverage, us.midAverage, us.longAverage;
    }

    /** The four calls of sum_stats for one more user. */
    method SumStats(us: User)
      requires us.stats.Valid()
      modifies `current, `shortAverage, `midAverage, `longAverage
      ensures ShownUsage() == old(ShownUsage()).Plus(Contribution(us))
    {
      current := current.Plus(us.stats.Get(0));
      shortAverage := shortAverage.Plus(us.shortAverage);
      midAverage := midAverage.Plus(us.midAverage);
      longAverage := longAverage.Plus(us.longAverage);
    }

    static method GetTimeout(cfg: Config, level: int, penalty: int) returns (clamped: int, timeout: int)
      ensures clamped == Clamp(level + penalty) && timeout == Duration(cfg, clamped)
    {
      clamped := level + penalty;
      if clamped > 3 {
        clamped := 3;
      }
      if clamped < 0 {
        clamped := 0;
      }
      match clamped {
        case 0 => timeout := cfg.level1;
        case 1 => timeout := cfg.level2;
        case 2 => timeout := cfg.level3;
        case _ => timeout := cfg.level4;
      }
    }

    /** The common part of the four branches of check_restrict. */
    method Escalate(cfg: Config, period: Period, field: Field, check: int, start: int, q: Commands)
      requires q.State().Valid()
      modifies this`restricted, this`timeout, this`startCount, this`fieldRestrict, this`fieldLevelRestrict, q
      ensures State() == (var level := Clamp(old(restricted) + if old(startCount) + cfg.timeout > check then 1 else 0);
                          Acc(old(State()).usage, level, Duration(cfg, level), start, period, field))
      ensures q.State() == old(q.State()).Append(BatchFor(cfg, UserNames(),
          if old(restricted) == 0 then [FREEZE] else []))
    {
      var oldRestricted := restricted;
      var restrictPeriod;
      if startCount + cfg.timeout > check {
        restricted, restrictPeriod := GetTimeout(cfg, restricted, 1);
      } else {
        restricted, restrictPeriod := GetTimeout(cfg, restricted, 0);
      }
      timeout := restrictPeriod;
      startCount := start;
      fieldRestrict := period;
      fieldLevelRestrict := field;
      AppendNothing(q.State());
      if oldRestricted == 0 {
        OneBatch(cfg, UserNames(), FREEZE);
        q.AccountRestrict(cfg, UserNames());
      }
    }

    method CheckRestrict(cfg: Config, sl: Limits, check: int, start: int, q: Commands) returns (began: bool)
      requires q.State().Valid()
      modifies this`restricted, this`timeout, this`startCount, this`fieldRestrict, this`fieldLevelRestrict, q
      ensures var o := Restriction.CheckRestrict(cfg, sl, old(State()), check, start);
              && began == o.Some?
              && State() == (if o.Some? then o.value.acc else old(State()))
              && q.State() == old(q.State()).Append(if o.Some? then BatchFor(cfg, UserNames(), o.value.out) else [])
    {
      AppendNothing(q.State());
      var cur := IsStatOverlimit(current, sl.current);
      if cur != NORESTRICT_PARAM2 {
        Escalate(cfg, CURRENT_PERIOD, cur, check, start, q);
        return true;
      } else {
        var short := IsStatOverlimit(shortAverage, sl.short);
        if short != NORESTRICT_PARAM2 {
          Escalate(cfg, SHORT_PERIOD, short, check, start, q);
          return true;
        } else {
          var mid := IsStatOverlimit(midAverage, sl.mid);
          if mid != NORESTRICT_PARAM2 {
            Escalate(cfg, MID_PERIOD, mid, check, start, q);
            return true;
          } else {
            var long := IsStatOverlimit(longAverage, sl.long);
            if long != NORESTRICT_PARAM2 {
              Escalate(cfg, LONG_PERIOD, long, check, start, q);
              return true;
            }
          }
        }
      }
      return false;
    }

    method AccountAnalyze(cfg: Config, sl: Limits, r: Readings, q: Commands)
      requires q.State().Valid()
      modifies this`restricted, this`timeout, this`startCount, this`fieldRestrict, this`fieldLevelRestrict, q
      ensures var o := Analyze(cfg, sl, old(State()), r);
              State() == o.acc && q.State() == old(q.State()).Append(BatchFor(cfg, UserNames(), o.out))
    {
      AppendNothing(q.State());
      if cfg.allLve || !cfg.useLve {
        return;
      }
      if !sl.ignored {
        if timeout == 0 {
          var began := CheckRestrict(cfg, sl, r.check, r.start, q);
          if began {
            return;
          }
        }
        if startCount > 0 {
          if timeout != 0 && startCount + timeout <= r.now {
            timeout := 0;
            startCount := r.mid;
            fieldRestrict := NO_PERIOD;
            fieldLevelRestrict := NORESTRICT_PARAM;
            var again := CheckRestrict(cfg, sl, r.check, r.start, q);
            if !again {
              OneBatch(cfg, UserNames(), UNFREEZE);
              q.AccountUnrestrict(cfg, UserNames());
            }
          } else if startCount + cfg.timeout <= r.now && timeout == 0 {
            startCount := 0;
            restricted := 0;
            fieldRestrict := NO_PERIOD;
            fieldLevelRestrict := NORESTRICT_PARAM2;
            timeout := 0;
          }
        }
      }
    }

    /** The common part of the four branches of check_restrict_limit. */
    method Limit(cfg: Config, period: Period, field: Field, start: int, q: Commands)
      requires q.State().Valid()
      modifies this`restricted, this`timeout, this`startCount, this`fieldRestrict, this`fieldLevelRestrict, q
      ensures State() == Acc(old(State()).usage, LIMIT_MODE_RESTRICTED, cfg.lUnlimit, start, period, field)
      ensures q.State() == old(q.State()).Append(BatchFor(cfg, UserNames(),
          if old(restricted) == 0 then [FREEZE] else []))
    {
      var oldRestricted := restricted;
      restricted := LIMIT_MODE_RESTRICTED;
      timeout := cfg.lUnlimit;
      startCount := start;
      fieldRestrict := period;
      fieldLevelRestrict := field;
      AppendNothing(q.State());
      if oldRestricted == 0 {
        OneBatch(cfg, UserNames(), FREEZE);
        q.AccountRestrict(cfg, UserNames());
      }
    }

    method CheckRestrictLimit(cfg: Config, sl: Limits, start: int, q: Commands) returns (began: bool)
      requires q.State().Valid()
      modifies this`restricted, this`timeout, this`startCount, this`fieldRestrict, this`fieldLevelRestrict, q
      ensures var o := Restriction.CheckRestrictLimit(cfg, sl, old(State()), start);
              && began == o.Some?
              && State() == (if o.Some? then o.value.acc else old(State()))
              && q.State() == old(q.State()).Append(if o.Some? then BatchFor(cfg, UserNames(), o.value.out) else [])
    {
      AppendNothing(q.State());
      var cur := IsStatOverlimit(current, sl.current);
      if cur != NORESTRICT_PARAM2 {
        Limit(cfg, CURRENT_PERIOD, cur, start, q);
        return true;
      } else {
        var short := IsStatOverlimit(shortAverage, sl.short);
        if short != NORESTRICT_PARAM2 {
          Limit(cfg, SHORT_PERIOD, short, start, q);
          return true;
        } else {
          var mid := IsStatOverlimit(midAverage, sl.mid);
          if mid != NORESTRICT_PARAM2 {
            Limit(cfg, MID_PERIOD, mid, start, q);
            return true;
          } else {
            var long := IsStatOverlimit(longAverage, sl.long);
            if long != NORESTRICT_PARAM2 {
              Limit(cfg, LONG_PERIOD, long, start, q);
              return true;
            }
          }
        }
      }
      return false;
    }

    method AccountAnalyzeLimit(cfg: Config, sl: Limits, r: Readings, q: Commands)
      requires q.State().Valid()
      modifies this`restricted, this`timeout, this`startCount, this`fieldRestrict, this`fieldLevelRestrict, q
      ensures var o := AnalyzeLimit(cfg, sl, old(State()), r);
              State() == o.acc && q.State() == old(q.State()).Append(BatchFor(cfg, UserNames(), o.out))
    {
      AppendNothing(q.State());
      if cfg.allLve || !cfg.useLve {
        return;
      }
      if !sl.ignored {
        if timeout == 0 {
          var began := CheckRestrictLimit(cfg, sl, r.start, q);
          if began {
            return;
          }
        }
        if startCount > 0 {
          var began := CheckRestrictLimit(cfg, sl, r.mid, q);
          if began {
            startCount := r.start;
          } else if timeout != 0 && startCount + timeout <= r.now {
            startCount := 0;
            restricted := 0;
            fieldRestrict := NO_PERIOD;
            fieldLevelRestrict := NORESTRICT_PARAM2;
            timeout := 0;
            OneBatch(cfg, UserNames(), UNFREEZE);
            q.AccountUnrestrict(cfg, UserNames());
          }
        }
      }
    }

    /** comapre_users_name: 0 in the source when the name is found. */
    method HasUser(username: Name) returns (found: bool)
      ensures found <==> username in UserNames()
    {
      for i := 0 to |users|
        invariant forall k :: 0 <= k < i ==> users[k].id != username
      {
        if users[i].id == username {
          assert UserNames()[i] == username;
          return true;
        }
      }
      return false;
    }

    /** The level that a dbctl restrict sets, and its duration. */
    method AskedLevel(cfg: Config, level: int) returns (asked: int, duration: int)
      ensures (asked, duration) == Asked(cfg, restricted, level)
    {
      var chosen, coeff := level, 0;
      if chosen == -1 {
        chosen, coeff := restricted, -1;
      } else {
        chosen := chosen - 1;
        if chosen < 0 {
          chosen := 0;
        }
      }
      if cfg.restrictMode {
        duration := cfg.lUnlimit;
        asked := LIMIT_MODE_RESTRICTED;
      } else {
        asked, duration := GetTimeout(cfg, chosen, coeff);
      }
    }

    method DbctlRestrictSet(cfg: Config, sl: Limits, username: Name, level: int, start: int, q: Commands)
      requires q.State().Valid()
      modifies this`restricted, this`timeout, this`startCount, this`fieldRestrict, this`fieldLevelRestrict, q
      ensures var o := if id == username || username in UserNames() then DbctlRestrict(cfg, sl, old(State()),
            level, start)
                       else Outcome(old(State()), []);
              State() == o.acc && q.State() == old(q.State()).Append(BatchFor(cfg, UserNames(), o.out))
    {
      AppendNothing(q.State());
      var matches := id == username;
      if !matches {
        matches := HasUser(username);
      }
      if matches {
        var cur := IsStatOverlimit(current, sl.current);
        restricted, timeout := AskedLevel(cfg, level);
        startCount := start;
        fieldRestrict := CURRENT_PERIOD;
        fieldLevelRestrict := cur;
        OneBatch(cfg, UserNames(), FREEZE);
        q.AccountRestrict(cfg, UserNames());
      }
    }

    method Clear()
      modifies this`restricted, this`timeout, this`startCount, this`fieldRestrict, this`fieldLevelRestrict,
               this`current, this`shortAverage, this`midAverage, this`longAverage
      ensures State() == FRESH
    {
      timeout, startCount, restricted := 0, 0, 0;
      current, longAverage, midAverage, shortAverage := ZERO_STATS, ZERO_STATS, ZERO_STATS, ZERO_STATS;
      fieldRestrict, fieldLevelRestrict := NO_PERIOD, NORESTRICT_PARAM2;
    }

    /** An addressed account is always released: its users are sent UNFREEZE, whatever the limits. */
    method DbctlUnrestrictSet(cfg: Config, sl: Limits, username: Name, check: int, start: int, q: Commands)
      requires q.State().Valid()
      modifies this`restricted, this`timeout, this`startCount, this`fieldRestrict, this`fieldLevelRestrict,
               this`current, this`shortAverage, this`midAverage, this`longAverage, q
      ensures id == username ==>
                State() == FRESH && q.State() == old(q.State()).Append(UnfreezeBatch(cfg, UserNames()))
      ensures id != username ==> State() == old(State()) && q.State() == old(q.State())
    {
      if id == username {
        Clear();
        UnrestrictReleases(cfg, sl, State(), check, start);
        AppendNothing(q.State());
        var again := CheckRestrict(cfg, sl, check, start, q);
        if !again {
          q.AccountUnrestrict(cfg, UserNames());
        }
      }
    }

    method DbctlUnrestrictAllSet(cfg: Config, q: Commands)
      requires q.State().Valid()
      modifies this`restricted, this`timeout, this`startCount, this`fieldRestrict, this`fieldLevelRestrict,
               this`current, this`shortAverage, this`midAverage, this`longAverage, q
      ensures var o := DbctlUnrestrictAll(old(State()));
              State() == o.acc && q.State() == old(q.State()).Append(BatchFor(cfg, UserNames(), o.out))
    {
      AppendNothing(q.State());
      if timeout != 0 {
        OneBatch(cfg, UserNames(), UNFREEZE);
        q.AccountUnrestrict(cfg, UserNames());
      }
      Clear();
    }
  }
}
