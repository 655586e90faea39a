/** What a tick or a dbctl command does to one account's restriction (src/calc_stats.c), on values. */
module Restriction {
  import opened Data

  datatype Field = NORESTRICT_PARAM2 | CPU_PARAM | READ_PARAM | WRITE_PARAM | NORESTRICT_PARAM

  datatype Period = NO_PERIOD | CURRENT_PERIOD | SHORT_PERIOD | MID_PERIOD | LONG_PERIOD

  /** The limits of one period; a negative limit is switched off. */
  datatype Limit = Limit(cpu: int, read: int, write: int)

  datatype Limits = Limits(current: Limit, short: Limit, mid: Limit, long: Limit, ignored: bool)

  /** What calc_acc_stats computes for an account: its newest sample and its three averages. */
  datatype Usage = Usage(current: Stats, short: Stats, mid: Stats, long: Stats) {
    function Plus(u: Usage): Usage {
      Usage(current.Plus(u.current), short.Plus(u.short), mid.Plus(u.mid), long.Plus(u.long))
    }
  }

  const NO_USAGE := Usage(ZERO_STATS, ZERO_STATS, ZERO_STATS, ZERO_STATS)

  function SumUsages(s: seq<Usage>): Usage {
    if s == [] then NO_USAGE else SumUsages(s[..|s| - 1]).Plus(s[|s| - 1])
  }

  lemma SumUsagesNext(s: seq<Usage>, i: nat)
    requires i < |s|
    ensures SumUsages(s[..i + 1]) == SumUsages(s[..i]).Plus(s[i])
    ensures i == 0 ==> SumUsages(s[..i + 1]) == s[0]
  {
    assert s[..i + 1][..i] == s[..i];
  }

  /** is_stat_overlimit_*: CPU limits are percentages. */
  function IsStatOverlimit(st: Stats, limit: Limit): Field {
    if st.cpu > limit.cpu as real / 100.0 && limit.cpu >= 0 then CPU_PARAM
    else if st.read > limit.read && limit.read >= 0 then READ_PARAM
    else if st.write > limit.write && limit.write >= 0 then WRITE_PARAM
    else NORESTRICT_PARAM2
  }

  /** The first period, from the shortest, in which a limit is exceeded, and the exceeded resource. */
  function Cause(u: Usage, sl: Limits): (Period, Field) {
    if IsStatOverlimit(u.current, sl.current) != NORESTRICT_PARAM2 then
      (CURRENT_PERIOD, IsStatOverlimit(u.current, sl.current))
    else if IsStatOverlimit(u.short, sl.short) != NORESTRICT_PARAM2 then
      (SHORT_PERIOD, IsStatOverlimit(u.short, sl.short))
    else if IsStatOverlimit(u.mid, sl.mid) != NORESTRICT_PARAM2 then
      (MID_PERIOD, IsStatOverlimit(u.mid, sl.mid))
    else if IsStatOverlimit(u.long, sl.long) != NORESTRICT_PARAM2 then
      (LONG_PERIOD, IsStatOverlimit(u.long, sl.long))
    else (NO_PERIOD, NORESTRICT_PARAM2)
  }

  function Pick(u: Usage, period: Period): Stats {
    match period
    case SHORT_PERIOD => u.short
    case MID_PERIOD => u.mid
    case LONG_PERIOD => u.long
    case _ => u.current
  }

  function LimitOf(sl: Limits, period: Period): Limit {
    match period
    case SHORT_PERIOD => sl.short
    case MID_PERIOD => sl.mid
    case LONG_PERIOD => sl.long
    case _ => sl.current
  }

  /** What exceeding a limit means: some enabled limit lies strictly below the usage. */
  ghost predicate Exceeds(st: Stats, limit: Limit) {
    || (0 <= limit.cpu && limit.cpu as real < 100.0 * st.cpu)
    || (0 <= limit.read < st.read)
    || (0 <= limit.write < st.write)
  }

  ghost predicate OverLimit(u: Usage, sl: Limits) {
    Exceeds(u.current, sl.current) || Exceeds(u.short, sl.short) || Exceeds(u.mid, sl.mid) || Exceeds(u.long, sl.long)
  }

  lemma OverlimitMeaning(st: Stats, limit: Limit)
    ensures IsStatOverlimit(st, limit) != NORESTRICT_PARAM2 <==> Exceeds(st, limit)
  {
    assert st.cpu > limit.cpu as real / 100.0 <==> limit.cpu as real < 100.0 * st.cpu;
  }

  /** A cause is found exactly when some limit of some period is exceeded. */
  lemma CauseMeaning(u: Usage, sl: Limits)
    ensures Cause(u, sl).0 != NO_PERIOD <==> OverLimit(u, sl)
    ensures Cause(u, sl).0 == NO_PERIOD <==> Cause(u, sl).1 == NORESTRICT_PARAM2
  {
    OverlimitMeaning(u.current, sl.current);
    OverlimitMeaning(u.short, sl.short);
    OverlimitMeaning(u.mid, sl.mid);
    OverlimitMeaning(u.long, sl.long);
  }

  /** The order in which the nested checks look. */
  function PeriodRank(period: Period): nat {
    match period
    case CURRENT_PERIOD => 1
    case SHORT_PERIOD => 2
    case MID_PERIOD => 3
    case LONG_PERIOD => 4
    case NO_PERIOD => 5
  }

  function FieldRank(field: Field): nat {
    match field
    case CPU_PARAM => 1
    case READ_PARAM => 2
    case WRITE_PARAM => 3
    case _ => 4
  }

  /** The usage of that resource lies strictly above an enabled limit. */
  predicate Over(st: Stats, limit: Limit, field: Field) {
    match field
    case CPU_PARAM => 0 <= limit.cpu && limit.cpu as real < 100.0 * st.cpu
    case READ_PARAM => 0 <= limit.read < st.read
    case WRITE_PARAM => 0 <= limit.write < st.write
    case _ => false
  }

  /** is_stat_overlimit names the first resource, in the order CPU, reads, writes, that is over its limit. */
  lemma OverlimitIsFirst(st: Stats, limit: Limit)
    ensures var f := IsStatOverlimit(st, limit);
            && (f != NORESTRICT_PARAM2 ==> Over(st, limit, f))
            && forall g :: Over(st, limit, g) ==> FieldRank(f) <= FieldRank(g)
  {
    assert st.cpu > limit.cpu as real / 100.0 <==> limit.cpu as real < 100.0 * st.cpu;
  }

  /** The cause is the first period, from the shortest, with a limit exceeded, and its first such resource. */
  lemma CauseIsFirst(u: Usage, sl: Limits)
    ensures var (p, f) := Cause(u, sl);
            && (p != NO_PERIOD ==> Over(Pick(u, p), LimitOf(sl, p), f))
            && (forall q, g :: q != NO_PERIOD && Over(Pick(u, q), LimitOf(sl, q), g) ==>
                  PeriodRank(p) <= PeriodRank(q) && (p == q ==> FieldRank(f) <= FieldRank(g)))
  {
    forall p | p != NO_PERIOD {
      OverlimitIsFirst(Pick(u, p), LimitOf(sl, p));
    }
    forall q, g | q != NO_PERIOD && Over(Pick(u, q), LimitOf(sl, q), g)
      ensures var (p, f) := Cause(u, sl); PeriodRank(p) <= PeriodRank(q) && (p == q ==> FieldRank(f) <= FieldRank(g))
    {
      NoCauseBefore(u, sl, q, g);
    }
  }

  lemma NoCauseBefore(u: Usage, sl: Limits, q: Period, g: Field)
    requires q != NO_PERIOD && Over(Pick(u, q), LimitOf(sl, q), g)
    ensures var (p, f) := Cause(u, sl); PeriodRank(p) <= PeriodRank(q) && (p == q ==> FieldRank(f) <= FieldRank(g))
  {
    OverlimitIsFirst(Pick(u, q), LimitOf(sl, q));
  }

  /** Zeroed statistics exceed no limit at all, whatever the limits, disabled ones included. */
  lemma NoUsageNoCause(sl: Limits)
    ensures Cause(NO_USAGE, sl).0 == NO_PERIOD
  {
    CauseMeaning(NO_USAGE, sl);
  }

  // ----- The account's state -----

  datatype Acc = Acc(
    usage: Usage,
    restricted: int,      // limit mode: 0 or 1000; period mode: the level
    timeout: int,
    startCount: int,
    period: Period,       // info.field_restrict
    field: Field)         // info.field_level_restrict

  /** An account as init_account makes it. */
  const FRESH := Acc(NO_USAGE, 0, 0, 0, NO_PERIOD, NORESTRICT_PARAM2)

  /** The account afterwards, and the kind of each batch of commands queued for all its users. */
  datatype Outcome = Outcome(acc: Acc, out: seq<Kind>)

  /** The clock readings one tick or command takes for one account, named by their role. */
  datatype Readings = Readings(
    now: int,       // compared with the end of the restriction or of the penalty window
    mid: int,       // stored in start_count, then overwritten or used by the next check
    check: int,     // check_restrict: compared with the end of the penalty window
    start: int)     // the reading that stays in start_count when a restriction begins
  {
    /** The clock does not run backwards, and has left the epoch. */
    predicate InOrder() {
      1 <= now <= mid <= check <= start
    }
  }

  // ----- Period mode -----

  /** get_timeout: the level after the penalty, and its duration. */
  function Clamp(level: int): int {
    if level > 3 then 3 else if level < 0 then 0 else level
  }

  function Duration(cfg: Config, level: int): nat {
    if level == 0 then cfg.level1
    else if level == 1 then cfg.level2
    else if level == 2 then cfg.level3
    else cfg.level4
  }

  /** check_restrict; None when nothing is over limit. */
  function CheckRestrict(cfg: Config, sl: Limits, a: Acc, check: int, start: int): Option<Outcome> {
    var (period, field) := Cause(a.usage, sl);
    if period == NO_PERIOD then None
    else
      var level := Clamp(a.restricted + if a.startCount + cfg.timeout > check then 1 else 0);
      Some(Outcome(Acc(a.usage, level, Duration(cfg, level), start, period, field),
                   if a.restricted == 0 then [FREEZE] else []))
  }

  /** account_analyze */
  function Analyze(cfg: Config, sl: Limits, a: Acc, r: Readings): Outcome {
    if cfg.allLve || !cfg.useLve || sl.ignored then Outcome(a, [])
    else
      var first := CheckRestrict(cfg, sl, a, r.check, r.start);
      if a.timeout == 0 && first.Some? then first.value
      else if a.startCount > 0 && a.timeout != 0 && a.startCount + a.timeout <= r.now then
        var released := a.(timeout := 0, startCount := r.mid, period := NO_PERIOD, field := NORESTRICT_PARAM);
        var again := CheckRestrict(cfg, sl, released, r.check, r.start);
        if again.Some? then again.value else Outcome(released, [UNFREEZE])
      else if a.startCount > 0 && a.timeout == 0 && a.startCount + cfg.timeout <= r.now then
        Outcome(FRESH.(usage := a.usage), [])
      else Outcome(a, [])
  }

  // ----- Limit mode -----

  const LIMIT_MODE_RESTRICTED := 1000

  /** check_restrict_limit; None when nothing is over limit. */
  function CheckRestrictLimit(cfg: Config, sl: Limits, a: Acc, start: int): Option<Outcome> {
    var (period, field) := Cause(a.usage, sl);
    if period == NO_PERIOD then None
    else
      Some(Outcome(Acc(a.usage, LIMIT_MODE_RESTRICTED, cfg.lUnlimit, start, period, field),
                   if a.restricted == 0 then [FREEZE] else []))
  }

  /** account_analyze_limit */
  function AnalyzeLimit(cfg: Config, sl: Limits, a: Acc, r: Readings): Outcome {
    if cfg.allLve || !cfg.useLve || sl.ignored then Outcome(a, [])
    else
      var first := CheckRestrictLimit(cfg, sl, a, r.start);
      if a.timeout == 0 && first.Some? then first.value
      else if a.startCount <= 0 then Outcome(a, [])
      else if first.Some? then first.value
      else if a.timeout != 0 && a.startCount + a.timeout <= r.now then
        Outcome(FRESH.(usage := a.usage), [UNFREEZE])
      else Outcome(a, [])
  }

  // ----- dbctl -----

  /** The level that dbctl_restrict_set sets and its duration, from the present level and the asked one. */
  function Asked(cfg: Config, restricted: int, level: int): (int, int) {
    if cfg.restrictMode then (LIMIT_MODE_RESTRICTED, cfg.lUnlimit)
    else
      var chosen := Clamp(if level == -1 then restricted - 1 else if level - 1 < 0 then 0 else level - 1);
      (chosen, Duration(cfg, chosen))
  }

  /** dbctl_restrict_set; level -1 stands for a command without a level. */
  function DbctlRestrict(cfg: Config, sl: Limits, a: Acc, level: int, start: int): Outcome {
    var (restricted, timeout) := Asked(cfg, a.restricted, level);
    Outcome(Acc(a.usage, restricted, timeout, start, CURRENT_PERIOD, IsStatOverlimit(a.usage.current, sl.current)),
            [FREEZE])
  }

  /** dbctl_unrestrict_set: everything is zeroed, then check_restrict is asked again (in both modes). */
  function DbctlUnrestrict(cfg: Config, sl: Limits, a: Acc, check: int, start: int): Outcome {
    var again := CheckRestrict(cfg, sl, FRESH, check, start);
    if again.Some? then again.value else Outcome(FRESH, [UNFREEZE])
  }

  /** dbctl_unrestrict_all_set */
  function DbctlUnrestrictAll(a: Acc): Outcome {
    Outcome(FRESH, if a.timeout != 0 then [UNFREEZE] else [])
  }

  /** A dbctl unrestrict always releases: the second look never restricts again. */
  lemma UnrestrictReleases(cfg: Config, sl: Limits, a: Acc, check: int, start: int)
    ensures DbctlUnrestrict(cfg, sl, a, check, start) == Outcome(FRESH, [UNFREEZE])
  {
    NoUsageNoCause(sl);
  }

  // ----- Runs of one account -----

  datatype Event =
    | Tick(usage: Usage, r: Readings)
    | Restrict(level: int, r: Readings)
    | Unrestrict(r: Readings)
    | UnrestrictAll(r: Readings)

  function Step(cfg: Config, sl: Limits, a: Acc, e: Event): Outcome {
    match e
    case Tick(usage, r) =>
      if cfg.restrictMode then AnalyzeLimit(cfg, sl, a.(usage := usage), r)
      else Analyze(cfg, sl, a.(usage := usage), r)
    case Restrict(level, r) => DbctlRestrict(cfg, sl, a, level, r.start)
    case Unrestrict(r) => DbctlUnrestrict(cfg, sl, a, r.check, r.start)
    case UnrestrictAll(_) => DbctlUnrestrictAll(a)
  }

  function Run(cfg: Config, sl: Limits, events: seq<Event>): Acc {
    if events == [] then FRESH
    else Step(cfg, sl, Run(cfg, sl, events[..|events| - 1]), events[|events| - 1]).acc
  }

  /** The kinds of all batches queued over a run, in order. */
  function Sent(cfg: Config, sl: Limits, events: seq<Event>): seq<Kind> {
    if events == [] then []
    else
      var prefix := events[..|events| - 1];
      Sent(cfg, sl, prefix) + Step(cfg, sl, Run(cfg, sl, prefix), events[|events| - 1]).out
  }

  /** The users of the account were last told that they are restricted. */
  predicate EndsFrozen(sent: seq<Kind>) {
    sent != [] && sent[|sent| - 1] == FREEZE
  }

  /** Time does not run backwards within an event nor from one event to the next. */
  ghost predicate Timely(events: seq<Event>) {
    && (forall i :: 0 <= i < |events| ==> events[i].r.InOrder())
    && (forall i, j :: 0 <= i < j < |events| ==> events[i].r.start <= events[j].r.now)
  }

  /** Where throttling is off, or the account is in IGNORE mode, a tick of either mode only takes over the
      statistics. */
  lemma TickWhenOff(cfg: Config, sl: Limits, a: Acc, u: Usage, r: Readings)
    requires cfg.allLve || !cfg.useLve || sl.ignored
    ensures Step(cfg, sl, a, Tick(u, r)) == Outcome(a.(usage := u), [])
  {
  }
}
