/** Period mode over whole runs: four escalating levels and a penalty window. */
module PeriodMode {
  import opened Data
  import opened Restriction

  ghost predicate PeriodConfig(cfg: Config) {
    cfg.Throttling() && !cfg.restrictMode
  }

  predicate PositiveDurations(cfg: Config) {
    0 < cfg.level1 && 0 < cfg.level2 && 0 < cfg.level3 && 0 < cfg.level4
  }

  /** How long a restriction of each level lasts. */
  function Ladder(cfg: Config): seq<nat> {
    [cfg.level1, cfg.level2, cfg.level3, cfg.level4]
  }

  // ----- The invariant of every tick and every command -----

  /** What holds of the fields whatever the configured durations are. */
  predicate Consistent(cfg: Config, a: Acc) {
    && 0 <= a.restricted <= 3
    && 0 <= a.timeout && 0 <= a.startCount
    && (a.timeout != 0 ==> a.timeout == Ladder(cfg)[a.restricted] && 0 < a.startCount && a.period != NO_PERIOD)
    && (a.startCount == 0 ==> a.restricted == 0 && a.timeout == 0 && a.period == NO_PERIOD)
  }

  /** The two ways an account says that it is restricted. */
  predicate TimeoutNamesPeriod(a: Acc) {
    a.timeout != 0 <==> a.period != NO_PERIOD
  }

  lemma StepConsistent(cfg: Config, sl: Limits, a: Acc, e: Event)
    requires PeriodConfig(cfg) && e.r.InOrder()
    requires Consistent(cfg, a)
    ensures Consistent(cfg, Step(cfg, sl, a, e).acc)
    ensures PositiveDurations(cfg) && TimeoutNamesPeriod(a) ==> TimeoutNamesPeriod(Step(cfg, sl, a, e).acc)
  {
    NoUsageNoCause(sl);
  }

  lemma {:induction false} RunConsistent(cfg: Config, sl: Limits, events: seq<Event>)
    requires PeriodConfig(cfg) && Timely(events)
    ensures Consistent(cfg, Run(cfg, sl, events))
    ensures PositiveDurations(cfg) ==> TimeoutNamesPeriod(Run(cfg, sl, events))
  {
    if events != [] {
      var prefix, e := events[..|events| - 1], events[|events| - 1];
      assert events == prefix + [e];
      RunConsistent(cfg, sl, prefix);
      StepConsistent(cfg, sl, Run(cfg, sl, prefix), e);
    }
  }

  /** timeout and field_restrict tell the same in every run if and only if all four durations are
      nonzero: a level without a duration restricts with timeout 0. */
  lemma TimeoutNamesPeriodIff(cfg: Config, sl: Limits)
    requires PeriodConfig(cfg)
    ensures PositiveDurations(cfg) <==>
            forall events :: Timely(events) ==> TimeoutNamesPeriod(Run(cfg, sl, events))
  {
    if PositiveDurations(cfg) {
      forall events | Timely(events) ensures TimeoutNamesPeriod(Run(cfg, sl, events)) {
        RunConsistent(cfg, sl, events);
      }
    } else {
      var level := if cfg.level1 == 0 then 1 else if cfg.level2 == 0 then 2 else if cfg.level3 == 0 then 3 else 4;
      var events := [Restrict(level, Readings(1, 1, 1, 1))];
      assert events[..0] == [];
      assert Run(cfg, sl, []) == FRESH;
      assert Timely(events) && !TimeoutNamesPeriod(Run(cfg, sl, events));
    }
  }

  // ----- Runs of ticks from any state -----

  ghost predicate Ticks(events: seq<Event>) {
    forall i :: 0 <= i < |events| ==> events[i].Tick?
  }

  function RunFrom(cfg: Config, sl: Limits, a: Acc, events: seq<Event>): Outcome {
    if events == [] then Outcome(a, [])
    else
      var o := RunFrom(cfg, sl, a, events[..|events| - 1]);
      var s := Step(cfg, sl, o.acc, events[|events| - 1]);
      Outcome(s.acc, o.out + s.out)
  }

  /** The restriction fields, without the statistics that every tick replaces. */
  function Fields(a: Acc): (int, int, int, Period, Field) {
    (a.restricted, a.timeout, a.startCount, a.period, a.field)
  }

  /** Once set, a restriction survives every tick that comes before its end, and none of those
      ticks queues a command. */
  lemma {:induction false} RestrictionHoldsUntilItsEnd(cfg: Config, sl: Limits, a: Acc, events: seq<Event>)
    requires PeriodConfig(cfg) && Timely(events) && Ticks(events)
    requires a.timeout != 0
    requires forall i :: 0 <= i < |events| ==> events[i].r.now < a.startCount + a.timeout
    ensures Fields(RunFrom(cfg, sl, a, events).acc) == Fields(a)
    ensures RunFrom(cfg, sl, a, events).out == []
  {
    if events != [] {
      var prefix := events[..|events| - 1];
      assert events == prefix + [events[|events| - 1]];
      RestrictionHoldsUntilItsEnd(cfg, sl, a, prefix);
    }
  }

  /** The first tick at or after the end of a restriction ends it, with an UNFREEZE, unless the
      account is over limit, in which case it goes on, one level up if the window is open. */
  lemma RestrictionEnds(cfg: Config, sl: Limits, a: Acc, u: Usage, r: Readings)
    requires PeriodConfig(cfg) && !sl.ignored && r.InOrder()
    requires Consistent(cfg, a) && a.timeout != 0 && a.startCount + a.timeout <= r.now
    ensures var o := Step(cfg, sl, a, Tick(u, r));
            if OverLimit(u, sl) then
              && o.acc.restricted == (if r.check < r.mid + cfg.timeout && a.restricted < 3 then a.restricted + 1
                  else a.restricted)
              && o.acc.timeout == Ladder(cfg)[o.acc.restricted] && o.acc.startCount == r.start
              && (o.acc.period, o.acc.field) == Cause(u, sl)
              && UNFREEZE !in o.out
            else
              && Fields(o.acc) == (a.restricted, 0, r.mid, NO_PERIOD, NORESTRICT_PARAM)
              && o.out == [UNFREEZE]
  {
    CauseMeaning(u, sl);
  }

  /** dbctl restrict: levels 1 to 4 are the four durations, a level above is the fourth, one below the
      first; without a level (-1) it is the level below the present one. The users are sent FREEZE,
      and the resource shown is the first one over its current limit, if any. */
  lemma AskedLevel(cfg: Config, sl: Limits, a: Acc, level: int, r: Readings)
    requires PeriodConfig(cfg)
    ensures var o := Step(cfg, sl, a, Restrict(level, r));
            var asked := if level == -1 then a.restricted else level;
            var n := if asked < 1 then 1 else if asked > 4 then 4 else asked;
            && Fields(o.acc) == (n - 1, Ladder(cfg)[n - 1], r.start, CURRENT_PERIOD,
                                 IsStatOverlimit(a.usage.current, sl.current))
            && o.acc.usage == a.usage && o.out == [FREEZE]
  {
  }

  // ----- Escalation -----

  /** The tick begins a restriction: the account is over limit and not under an unfinished one. */
  ghost predicate Begins(sl: Limits, a: Acc, e: Event) {
    && e.Tick? && !sl.ignored && OverLimit(e.usage, sl)
    && (a.timeout == 0 || a.startCount + a.timeout <= e.r.now)
  }

  /** The penalty window, counted from the last restriction or its release, is open at the check. */
  predicate WindowOpen(cfg: Config, a: Acc, r: Readings) {
    r.check < (if a.timeout == 0 then a.startCount else r.mid) + cfg.timeout
  }

  /** A quiet tick at or after the end of the penalty window; in IGNORE mode no tick does anything. */
  ghost predicate Lapses(cfg: Config, sl: Limits, a: Acc, e: Event) {
    && e.Tick? && !sl.ignored && !OverLimit(e.usage, sl)
    && a.timeout == 0 && 0 < a.startCount && a.startCount + cfg.timeout <= e.r.now
  }

  /** A quiet tick of an account that serves no restriction changes nothing before the end of the penalty
      window, and from then on makes the account fresh; it never queues anything. */
  lemma QuietTick(cfg: Config, sl: Limits, a: Acc, e: Event)
    requires PeriodConfig(cfg) && e.Tick? && !OverLimit(e.usage, sl) && a.timeout == 0
    ensures var o := Step(cfg, sl, a, e);
            && o.acc.usage == e.usage && o.out == []
            && Fields(o.acc) == if Lapses(cfg, sl, a, e) then Fields(FRESH) else Fields(a)
  {
    CauseMeaning(e.usage, sl);
  }

  /** The penalty window lasts: no run of quiet ticks before its end changes anything. */
  lemma {:induction false} WindowLasts(cfg: Config, sl: Limits, a: Acc, events: seq<Event>)
    requires PeriodConfig(cfg) && a.timeout == 0
    requires forall i :: 0 <= i < |events| ==>
               && events[i].Tick? && !OverLimit(events[i].usage, sl)
               && events[i].r.now < a.startCount + cfg.timeout
    ensures Fields(RunFrom(cfg, sl, a, events).acc) == Fields(a)
    ensures RunFrom(cfg, sl, a, events).out == []
    decreases |events|
  {
    if events != [] {
      var prefix, e := events[..|events| - 1], events[|events| - 1];
      assert events == prefix + [e];
      WindowLasts(cfg, sl, a, prefix);
      QuietTick(cfg, sl, RunFrom(cfg, sl, a, prefix).acc, e);
    }
  }

  /** A restriction that ended is followed by quiet ticks inside the window and then by one over limit:
      it is restricted one level up, however many quiet ticks came between. */
  lemma ReturningOffender(cfg: Config, sl: Limits, a: Acc, quiet: seq<Event>, e: Event)
    requires PeriodConfig(cfg) && !sl.ignored && a.timeout == 0 && 0 <= a.restricted <= 3
    requires forall i :: 0 <= i < |quiet| ==>
               && quiet[i].Tick? && !OverLimit(quiet[i].usage, sl)
               && quiet[i].r.now < a.startCount + cfg.timeout
    requires e.Tick? && OverLimit(e.usage, sl) && e.r.check < a.startCount + cfg.timeout
    ensures var b := RunFrom(cfg, sl, a, quiet + [e]).acc;
            && b.restricted == Min3(a.restricted + 1) && b.timeout == Ladder(cfg)[b.restricted]
            && b.startCount == e.r.start
  {
    WindowLasts(cfg, sl, a, quiet);
    RunFromNext(cfg, sl, a, quiet, e);
    CauseMeaning(e.usage, sl);
  }

  ghost function Restrictions(cfg: Config, sl: Limits, a: Acc, events: seq<Event>): nat {
    if events == [] then 0
    else
      var prefix := events[..|events| - 1];
      Restrictions(cfg, sl, a, prefix)
      + if Begins(sl, RunFrom(cfg, sl, a, prefix).acc, events[|events| - 1]) then 1 else 0
  }

  /** Every restriction that the run begins, it begins inside the preceding penalty window. */
  ghost predicate AllInside(cfg: Config, sl: Limits, a: Acc, events: seq<Event>) {
    forall i :: 0 <= i < |events| && Begins(sl, RunFrom(cfg, sl, a, events[..i]).acc, events[i])
                ==> WindowOpen(cfg, RunFrom(cfg, sl, a, events[..i]).acc, events[i].r)
  }

  function Min3(k: nat): nat {
    if k < 3 then k else 3
  }

  /** An automatic restriction raises the level by at most one, and only inside the window. */
  lemma BeginRaisesByOne(cfg: Config, sl: Limits, a: Acc, e: Event)
    requires PeriodConfig(cfg) && e.r.InOrder() && Consistent(cfg, a)
    requires e.Tick?
    ensures var b := Step(cfg, sl, a, e).acc;
            && b.restricted <= a.restricted + 1
            && (Begins(sl, a, e) ==>
                  && b.restricted == (if WindowOpen(cfg, a, e.r) then Min3(a.restricted + 1) else a.restricted)
                  && b.timeout == Ladder(cfg)[b.restricted] && b.startCount == e.r.start
                  && (b.period, b.field) == Cause(e.usage, sl))
            && (!Begins(sl, a, e) ==> if Lapses(cfg, sl, a, e) then Fields(b) == Fields(FRESH)
                                      else b.restricted == a.restricted)
  {
    CauseMeaning(e.usage, sl);
  }

  /** Some tick of the run was quiet and came at or after the end of the penalty window of its time. */
  ghost predicate Lapsed(cfg: Config, sl: Limits, a: Acc, events: seq<Event>) {
    exists i :: 0 <= i < |events| && Lapses(cfg, sl, RunFrom(cfg, sl, a, events[..i]).acc, events[i])
  }

  lemma LapsedNext(cfg: Config, sl: Limits, a: Acc, prefix: seq<Event>, e: Event)
    ensures Lapsed(cfg, sl, a, prefix + [e])
            <==> Lapsed(cfg, sl, a, prefix) || Lapses(cfg, sl, RunFrom(cfg, sl, a, prefix).acc, e)
  {
    var all := prefix + [e];
    assert all[..|prefix|] == prefix && all[|prefix|] == e;
    if Lapsed(cfg, sl, a, prefix) {
      var i :| 0 <= i < |prefix| && Lapses(cfg, sl, RunFrom(cfg, sl, a, prefix[..i]).acc, prefix[i]);
      assert all[..i] == prefix[..i] && all[i] == prefix[i];
    }
    if Lapsed(cfg, sl, a, all) {
      var i :| 0 <= i < |all| && Lapses(cfg, sl, RunFrom(cfg, sl, a, all[..i]).acc, all[i]);
      assert i < |prefix| ==> all[..i] == prefix[..i] && all[i] == prefix[i];
    }
  }

  /** The state of the escalation: fresh if the window has run out, otherwise k restrictions have followed. */
  ghost predicate Escalated(b: Acc, k: nat, lapsed: bool) {
    if lapsed then Fields(b) == Fields(FRESH) else 0 < b.startCount && b.restricted == Min3(k)
  }

  /** A run of ticks whose clock has moved on further from the epoch than one penalty window. */
  ghost predicate LateTicks(cfg: Config, events: seq<Event>) {
    Timely(events) && forall i :: 0 <= i < |events| ==> events[i].Tick? && cfg.timeout <= events[i].r.check
  }

  lemma LateTicksPrefix(cfg: Config, prefix: seq<Event>, e: Event)
    requires LateTicks(cfg, prefix + [e])
    ensures LateTicks(cfg, prefix)
    ensures e.Tick? && e.r.InOrder() && cfg.timeout <= e.r.check
  {
    var all := prefix + [e];
    assert all[|prefix|] == e;
    assert forall i :: 0 <= i < |prefix| ==> all[i] == prefix[i];
  }

  lemma RunFromNext(cfg: Config, sl: Limits, a: Acc, prefix: seq<Event>, e: Event)
    ensures var o, s := RunFrom(cfg, sl, a, prefix), Step(cfg, sl, RunFrom(cfg, sl, a, prefix).acc, e);
            RunFrom(cfg, sl, a, prefix + [e]) == Outcome(s.acc, o.out + s.out)
    ensures Restrictions(cfg, sl, a, prefix + [e])
            == Restrictions(cfg, sl, a, prefix) + if Begins(sl, RunFrom(cfg, sl, a, prefix).acc, e) then 1 else 0
  {
    assert (prefix + [e])[..|prefix|] == prefix;
  }

  /** After a level-0 restriction followed by k restrictions, each begun inside the preceding penalty
      window, the level is exactly min(3, k), unless a quiet tick came at or after the end of the
      last window: then, and only then, the account is fresh. */
  lemma {:induction false} EscalationCounts(cfg: Config, sl: Limits, a: Acc, events: seq<Event>)
    requires PeriodConfig(cfg) && LateTicks(cfg, events)
    requires Consistent(cfg, a) && a.restricted == 0 && 0 < a.startCount
    requires AllInside(cfg, sl, a, events)
    ensures Consistent(cfg, RunFrom(cfg, sl, a, events).acc)
    ensures Escalated(RunFrom(cfg, sl, a, events).acc, Restrictions(cfg, sl, a, events), Lapsed(cfg, sl, a, events))
    decreases |events|
  {
    if events != [] {
      var prefix, e := events[..|events| - 1], events[|events| - 1];
      assert events == prefix + [e];
      LateTicksPrefix(cfg, prefix, e);
      AllInsidePrefix(cfg, sl, a, prefix, e);
      EscalationCounts(cfg, sl, a, prefix);
      EscalationNext(cfg, sl, a, prefix, e);
    }
  }

  lemma EscalationNext(cfg: Config, sl: Limits, a: Acc, prefix: seq<Event>, e: Event)
    requires PeriodConfig(cfg) && e.Tick? && e.r.InOrder() && cfg.timeout <= e.r.check
    requires var b := RunFrom(cfg, sl, a, prefix).acc;
             && Consistent(cfg, b) && Escalated(b, Restrictions(cfg, sl, a, prefix), Lapsed(cfg, sl, a, prefix))
             && (Begins(sl, b, e) ==> WindowOpen(cfg, b, e.r))
    ensures Consistent(cfg, RunFrom(cfg, sl, a, prefix + [e]).acc)
    ensures Escalated(RunFrom(cfg, sl, a, prefix + [e]).acc, Restrictions(cfg, sl, a, prefix + [e]),
                      Lapsed(cfg, sl, a, prefix + [e]))
  {
    RunFromNext(cfg, sl, a, prefix, e);
    LapsedNext(cfg, sl, a, prefix, e);
    EscalationStep(cfg, sl, RunFrom(cfg, sl, a, prefix).acc, e, Restrictions(cfg, sl, a, prefix),
                   Lapsed(cfg, sl, a, prefix));
  }

  lemma AllInsidePrefix(cfg: Config, sl: Limits, a: Acc, prefix: seq<Event>, e: Event)
    requires AllInside(cfg, sl, a, prefix + [e])
    ensures AllInside(cfg, sl, a, prefix)
    ensures var b := RunFrom(cfg, sl, a, prefix).acc; Begins(sl, b, e) ==> WindowOpen(cfg, b, e.r)
  {
    var all := prefix + [e];
    assert all[..|prefix|] == prefix && all[|prefix|] == e;
    forall i | 0 <= i < |prefix| && Begins(sl, RunFrom(cfg, sl, a, prefix[..i]).acc, prefix[i])
      ensures WindowOpen(cfg, RunFrom(cfg, sl, a, prefix[..i]).acc, prefix[i].r)
    {
      assert all[..i] == prefix[..i] && all[i] == prefix[i];
    }
  }

  lemma EscalationStep(cfg: Config, sl: Limits, b: Acc, e: Event, k: nat, lapsed: bool)
    requires PeriodConfig(cfg) && e.Tick? && e.r.InOrder() && cfg.timeout <= e.r.check
    requires Consistent(cfg, b) && Escalated(b, k, lapsed)
    requires Begins(sl, b, e) ==> WindowOpen(cfg, b, e.r)
    ensures Consistent(cfg, Step(cfg, sl, b, e).acc)
    ensures Escalated(Step(cfg, sl, b, e).acc, if Begins(sl, b, e) then k + 1 else k,
                      lapsed || Lapses(cfg, sl, b, e))
  {
    StepConsistent(cfg, sl, b, e);
    BeginRaisesByOne(cfg, sl, b, e);
    CauseMeaning(e.usage, sl);
  }

  // ----- An account that stays over limit -----

  /** The account is over limit at every tick, and at the end of a restriction the readings of that
      tick are less than a penalty window apart. */
  ghost predicate AlwaysOver(cfg: Config, sl: Limits, events: seq<Event>) {
    forall i :: 0 <= i < |events| ==>
      events[i].Tick? && OverLimit(events[i].usage, sl) && events[i].r.check < events[i].r.mid + cfg.timeout
  }

  lemma AlwaysOverPrefix(cfg: Config, sl: Limits, prefix: seq<Event>, e: Event)
    requires AlwaysOver(cfg, sl, prefix + [e])
    ensures AlwaysOver(cfg, sl, prefix)
    ensures e.Tick? && OverLimit(e.usage, sl) && e.r.check < e.r.mid + cfg.timeout
  {
    var all := prefix + [e];
    assert all[|prefix|] == e;
    assert forall i :: 0 <= i < |prefix| ==> all[i] == prefix[i];
  }

  /** The account is over limit at every tick. */
  ghost predicate OverTicks(sl: Limits, events: seq<Event>) {
    forall i :: 0 <= i < |events| ==> events[i].Tick? && OverLimit(events[i].usage, sl)
  }

  lemma OverStep(cfg: Config, sl: Limits, a: Acc, e: Event)
    requires e.Tick? && OverLimit(e.usage, sl)
    ensures UNFREEZE !in Step(cfg, sl, a, e).out
    ensures PeriodConfig(cfg) && !sl.ignored && Consistent(cfg, a) ==> Step(cfg, sl, a, e).acc.period != NO_PERIOD
  {
    CauseMeaning(e.usage, sl);
  }

  /** An account that is over limit at every tick is never sent UNFREEZE: in either mode, whatever the
      durations, the penalty window and the clock, and from any state. */
  lemma {:induction false} OverNeverUnfrozen(cfg: Config, sl: Limits, a: Acc, events: seq<Event>)
    requires OverTicks(sl, events)
    ensures UNFREEZE !in RunFrom(cfg, sl, a, events).out
    decreases |events|
  {
    if events != [] {
      var prefix, e := events[..|events| - 1], events[|events| - 1];
      assert events == prefix + [e];
      OverNeverUnfrozen(cfg, sl, a, prefix);
      OverStep(cfg, sl, RunFrom(cfg, sl, a, prefix).acc, e);
    }
  }

  /** In period mode it is restricted after every tick of such a run, whatever the durations and the
      penalty window. */
  lemma {:induction false} OverStaysRestricted(cfg: Config, sl: Limits, a: Acc, events: seq<Event>)
    requires PeriodConfig(cfg) && !sl.ignored && Consistent(cfg, a)
    requires OverTicks(sl, events) && Timely(events)
    ensures Consistent(cfg, RunFrom(cfg, sl, a, events).acc)
    ensures events != [] ==> RunFrom(cfg, sl, a, events).acc.period != NO_PERIOD
    decreases |events|
  {
    if events != [] {
      var prefix, e := events[..|events| - 1], events[|events| - 1];
      assert events == prefix + [e];
      OverStaysRestricted(cfg, sl, a, prefix);
      StepConsistent(cfg, sl, RunFrom(cfg, sl, a, prefix).acc, e);
      OverStep(cfg, sl, RunFrom(cfg, sl, a, prefix).acc, e);
    }
  }

  /** n restrictions, never a release, and the level that follows from n. */
  ghost predicate NeverReleased(cfg: Config, o: Outcome, n: nat) {
    && UNFREEZE !in o.out && Consistent(cfg, o.acc)
    && if n == 0 then o.acc == FRESH else o.acc.timeout != 0 && o.acc.restricted == Min3(n - 1)
  }

  /** With all four durations set and every restriction renewed inside the penalty window, the
      restrictions of an account continuously over limit go through the levels 0, 1, 2, 3, 3, ... :
      after the n-th one the level is min(3, n - 1). */
  lemma {:induction false} ContinuousOffender(cfg: Config, sl: Limits, events: seq<Event>)
    requires PeriodConfig(cfg) && PositiveDurations(cfg) && !sl.ignored
    requires LateTicks(cfg, events) && AlwaysOver(cfg, sl, events)
    ensures NeverReleased(cfg, RunFrom(cfg, sl, FRESH, events), Restrictions(cfg, sl, FRESH, events))
    ensures events != [] ==> 1 <= Restrictions(cfg, sl, FRESH, events)
    decreases |events|
  {
    if events != [] {
      var prefix, e := events[..|events| - 1], events[|events| - 1];
      assert events == prefix + [e];
      LateTicksPrefix(cfg, prefix, e);
      AlwaysOverPrefix(cfg, sl, prefix, e);
      ContinuousOffender(cfg, sl, prefix);
      OffenderNext(cfg, sl, prefix, e);
    } else {
      NothingYet(cfg, sl);
    }
  }

  lemma NothingYet(cfg: Config, sl: Limits)
    ensures NeverReleased(cfg, RunFrom(cfg, sl, FRESH, []), Restrictions(cfg, sl, FRESH, []))
  {
  }

  lemma OffenderNext(cfg: Config, sl: Limits, prefix: seq<Event>, e: Event)
    requires PeriodConfig(cfg) && PositiveDurations(cfg) && !sl.ignored
    requires NeverReleased(cfg, RunFrom(cfg, sl, FRESH, prefix), Restrictions(cfg, sl, FRESH, prefix))
    requires e.Tick? && e.r.InOrder() && OverLimit(e.usage, sl)
    requires e.r.check < e.r.mid + cfg.timeout && cfg.timeout <= e.r.check
    ensures NeverReleased(cfg, RunFrom(cfg, sl, FRESH, prefix + [e]), Restrictions(cfg, sl, FRESH, prefix + [e]))
    ensures 1 <= Restrictions(cfg, sl, FRESH, prefix + [e])
  {
    RunFromNext(cfg, sl, FRESH, prefix, e);
    OffenderStep(cfg, sl, RunFrom(cfg, sl, FRESH, prefix), e, Restrictions(cfg, sl, FRESH, prefix));
  }

  lemma OffenderStep(cfg: Config, sl: Limits, o: Outcome, e: Event, n: nat)
    requires PeriodConfig(cfg) && PositiveDurations(cfg) && !sl.ignored
    requires NeverReleased(cfg, o, n)
    requires e.Tick? && e.r.InOrder() && OverLimit(e.usage, sl)
    requires e.r.check < e.r.mid + cfg.timeout && cfg.timeout <= e.r.check
    ensures var s := Step(cfg, sl, o.acc, e);
            var m := if Begins(sl, o.acc, e) then n + 1 else n;
            NeverReleased(cfg, Outcome(s.acc, o.out + s.out), m) && 1 <= m
  {
    CauseMeaning(e.usage, sl);
    StepConsistent(cfg, sl, o.acc, e);
    var s := Step(cfg, sl, o.acc, e);
    assert UNFREEZE !in s.out;
  }

  /** What the code does not do: on the first tick after the penalty window an account that is over
      limit keeps its old level, because the check comes before the reset. */
  lemma LateOffenderKeepsItsLevel(cfg: Config, sl: Limits, a: Acc, u: Usage, r: Readings)
    requires PeriodConfig(cfg) && !sl.ignored && r.InOrder() && Consistent(cfg, a)
    requires a.timeout == 0 && 0 < a.startCount && a.startCount + cfg.timeout <= r.now
    ensures Step(cfg, sl, a, Tick(u, r)).acc.restricted == if OverLimit(u, sl) then a.restricted else 0
  {
    CauseMeaning(u, sl);
  }

  // ----- What the account's users are sent -----

  /** A restriction that begins while the account serves none, but still has a level above 0. */
  ghost predicate BeginsUntold(sl: Limits, a: Acc, e: Event) {
    Begins(sl, a, e) && a.timeout == 0 && a.restricted != 0
  }

  /** From an account whose users were last told the truth, a step leaves them so, unless it begins
      a restriction at a level above 0: then no FREEZE is queued. */
  lemma TellsTheTruthIff(cfg: Config, sl: Limits, a: Acc, e: Event, sent: seq<Kind>)
    requires PeriodConfig(cfg) && PositiveDurations(cfg) && e.r.InOrder()
    requires Consistent(cfg, a) && (a.timeout != 0 <==> EndsFrozen(sent))
    ensures var o := Step(cfg, sl, a, e);
            (o.acc.timeout != 0 <==> EndsFrozen(sent + o.out)) <==> !BeginsUntold(sl, a, e)
  {
    NoUsageNoCause(sl);
    if e.Tick? {
      CauseMeaning(e.usage, sl);
    }
    assert sent + [] == sent;
  }

  ghost predicate Truthful(cfg: Config, sl: Limits, events: seq<Event>) {
    Run(cfg, sl, events).timeout != 0 <==> EndsFrozen(Sent(cfg, sl, events))
  }

  /** The i-th event of the run begins a restriction of which no user is told. */
  ghost predicate UntoldAt(cfg: Config, sl: Limits, events: seq<Event>, i: nat) {
    i < |events| && BeginsUntold(sl, Run(cfg, sl, events[..i]), events[i])
  }

  lemma TruthfulNext(cfg: Config, sl: Limits, events: seq<Event>, i: nat)
    requires PeriodConfig(cfg) && PositiveDurations(cfg) && Timely(events) && i < |events|
    requires Truthful(cfg, sl, events[..i])
    ensures Truthful(cfg, sl, events[..i + 1]) <==> !UntoldAt(cfg, sl, events, i)
  {
    assert events[..i + 1][..i] == events[..i];
    RunConsistent(cfg, sl, events[..i]);
    TellsTheTruthIff(cfg, sl, Run(cfg, sl, events[..i]), events[i], Sent(cfg, sl, events[..i]));
  }

  lemma {:induction false} TruthfulUntil(cfg: Config, sl: Limits, events: seq<Event>, n: nat)
    requires PeriodConfig(cfg) && PositiveDurations(cfg) && Timely(events) && n <= |events|
    requires forall i: nat :: i < n ==> !UntoldAt(cfg, sl, events, i)
    ensures Truthful(cfg, sl, events[..n])
  {
    if n > 0 {
      TruthfulUntil(cfg, sl, events, n - 1);
      TruthfulNext(cfg, sl, events, n - 1);
    }
  }

  /** Over a whole run, "restricted means last told FREEZE" holds at every point if and only if no
      restriction of the run begins untold. */
  lemma TruthfulIffNoneUntold(cfg: Config, sl: Limits, events: seq<Event>)
    requires PeriodConfig(cfg) && PositiveDurations(cfg) && Timely(events)
    ensures (forall n: nat :: n <= |events| ==> Truthful(cfg, sl, events[..n]))
            <==> (forall i: nat :: i < |events| ==> !UntoldAt(cfg, sl, events, i))
  {
    if forall i: nat :: i < |events| ==> !UntoldAt(cfg, sl, events, i) {
      forall n: nat | n <= |events| ensures Truthful(cfg, sl, events[..n]) {
        TruthfulUntil(cfg, sl, events, n);
      }
    } else {
      var i: nat :| i < |events| && UntoldAt(cfg, sl, events, i);
      if Truthful(cfg, sl, events[..i]) {
        TruthfulNext(cfg, sl, events, i);
      }
    }
  }

  // ----- Which configurations can leave users untold -----

  predicate Enabled(limit: Limit) {
    0 <= limit.cpu || 0 <= limit.read || 0 <= limit.write
  }

  predicate AnyLimit(sl: Limits) {
    Enabled(sl.current) || Enabled(sl.short) || Enabled(sl.mid) || Enabled(sl.long)
  }

  /** A usage above every limit. */
  function Above(limit: Limit): Stats {
    Stats(limit.cpu as real + 1.0, limit.read + 1, limit.write + 1)
  }

  function Excess(sl: Limits): Usage {
    Usage(Above(sl.current), Above(sl.short), Above(sl.mid), Above(sl.long))
  }

  lemma ExcessIsOver(sl: Limits)
    ensures AnyLimit(sl) ==> OverLimit(Excess(sl), sl)
  {
  }

  lemma NeverOver(sl: Limits, u: Usage)
    requires !AnyLimit(sl)
    ensures !OverLimit(u, sl)
  {
  }

  function At(t: int): Readings {
    Readings(t, t, t, t)
  }

  /** dbctl restrict at level 2, a quiet tick at its end, and a tick over limit. */
  function AskedThenOver(cfg: Config, sl: Limits): seq<Event> {
    [Restrict(2, At(1)), Tick(NO_USAGE, At(1 + cfg.level2)), Tick(Excess(sl), At(1 + cfg.level2))]
  }

  lemma AskedThenOverUntold(cfg: Config, sl: Limits)
    requires PeriodConfig(cfg) && PositiveDurations(cfg) && !sl.ignored && AnyLimit(sl)
    ensures Timely(AskedThenOver(cfg, sl)) && UntoldAt(cfg, sl, AskedThenOver(cfg, sl), 2)
  {
    var events := AskedThenOver(cfg, sl);
    RunTo(cfg, sl, events, 0);
    RunTo(cfg, sl, events, 1);
    NoUsageNoCause(sl);
    ExcessIsOver(sl);
    assert events[..0] == [];
    assert Run(cfg, sl, events[..1]).restricted == 1;
    assert Run(cfg, sl, events[..2]).restricted == 1 && Run(cfg, sl, events[..2]).timeout == 0;
  }

  lemma RunTo(cfg: Config, sl: Limits, events: seq<Event>, n: nat)
    requires n < |events|
    ensures Run(cfg, sl, events[..n + 1]) == Step(cfg, sl, Run(cfg, sl, events[..n]), events[n]).acc
  {
    assert events[..n + 1][..n] == events[..n];
  }

  /** Ticks alone: over limit, still over limit at the end of the restriction, quiet at the end of the
      second one, over limit once more. */
  function TwiceThenOver(cfg: Config, sl: Limits): seq<Event> {
    var first := cfg.timeout + 1;
    var second := first + cfg.level1;
    var third := second + cfg.level2;
    [Tick(Excess(sl), At(first)), Tick(Excess(sl), At(second)), Tick(NO_USAGE, At(third)), Tick(Excess(sl), At(third))]
  }

  lemma TwiceThenOverUntold(cfg: Config, sl: Limits)
    requires PeriodConfig(cfg) && PositiveDurations(cfg) && !sl.ignored && AnyLimit(sl) && 0 < cfg.timeout
    ensures Timely(TwiceThenOver(cfg, sl)) && Ticks(TwiceThenOver(cfg, sl))
    ensures UntoldAt(cfg, sl, TwiceThenOver(cfg, sl), 3)
  {
    var events := TwiceThenOver(cfg, sl);
    ExcessIsOver(sl);
    CauseMeaning(Excess(sl), sl);
    assert events[..0] == [];
    RunTo(cfg, sl, events, 0);
    var one := Run(cfg, sl, events[..1]);
    assert one.restricted == 0 && one.timeout == cfg.level1 && one.startCount == cfg.timeout + 1;
    RunTo(cfg, sl, events, 1);
    var two := Run(cfg, sl, events[..2]);
    assert two.restricted == 1 && two.timeout == cfg.level2;
    RunTo(cfg, sl, events, 2);
    NoUsageNoCause(sl);
    var three := Run(cfg, sl, events[..3]);
    assert three.restricted == 1 && three.timeout == 0;
  }

  lemma UntoldBreaks(cfg: Config, sl: Limits, events: seq<Event>, i: nat)
    requires PeriodConfig(cfg) && PositiveDurations(cfg) && Timely(events) && UntoldAt(cfg, sl, events, i)
    ensures exists n: nat :: n <= |events| && !Truthful(cfg, sl, events[..n])
  {
    TruthfulIffNoneUntold(cfg, sl, events);
  }

  lemma NoneUntoldHolds(cfg: Config, sl: Limits, events: seq<Event>)
    requires PeriodConfig(cfg) && PositiveDurations(cfg) && Timely(events)
    requires forall i: nat :: i < |events| ==> !UntoldAt(cfg, sl, events, i)
    ensures Truthful(cfg, sl, events)
  {
    TruthfulUntil(cfg, sl, events, |events|);
    assert events[..|events|] == events;
  }

  /** In every run of ticks and commands a restricted account's users were last told FREEZE, if and only
      if the account is in IGNORE mode or has no limit at all. */
  lemma TruthfulIffNoLimit(cfg: Config, sl: Limits)
    requires PeriodConfig(cfg) && PositiveDurations(cfg)
    ensures (forall events :: Timely(events) ==> Truthful(cfg, sl, events)) <==> sl.ignored || !AnyLimit(sl)
  {
    if sl.ignored || !AnyLimit(sl) {
      forall events: seq<Event> | Timely(events) ensures Truthful(cfg, sl, events) {
        forall i: nat | i < |events| ensures !UntoldAt(cfg, sl, events, i) {
          if !sl.ignored && events[i].Tick? {
            NeverOver(sl, events[i].usage);
          }
        }
        NoneUntoldHolds(cfg, sl, events);
      }
    } else {
      AskedThenOverUntold(cfg, sl);
      UntoldBreaks(cfg, sl, AskedThenOver(cfg, sl), 2);
    }
  }

  lemma ZeroStep(cfg: Config, sl: Limits, a: Acc, e: Event)
    requires PeriodConfig(cfg) && cfg.timeout == 0 && e.Tick? && e.r.InOrder()
    requires a.restricted == 0 && a.startCount <= e.r.now
    ensures Step(cfg, sl, a, e).acc.restricted == 0 && Step(cfg, sl, a, e).acc.startCount <= e.r.start
  {
  }

  /** Without a penalty window and without dbctl the level stays 0. */
  lemma {:induction false} LevelStaysZero(cfg: Config, sl: Limits, events: seq<Event>)
    requires PeriodConfig(cfg) && cfg.timeout == 0 && Timely(events) && Ticks(events)
    ensures var a := Run(cfg, sl, events);
            && a.restricted == 0
            && a.startCount <= if events == [] then 0 else events[|events| - 1].r.start
    decreases |events|
  {
    if events != [] {
      var n := |events| - 1;
      var prefix := events[..n];
      assert events == prefix + [events[n]];
      LevelStaysZero(cfg, sl, prefix);
      ZeroStep(cfg, sl, Run(cfg, sl, prefix), events[n]);
      assert prefix != [] ==> prefix[n - 1] == events[n - 1] && events[n - 1].r.start <= events[n].r.now;
    }
  }

  /** The same of runs of ticks alone: if and only if, further, there is no penalty window. */
  lemma TickTruthfulIffNoWindow(cfg: Config, sl: Limits)
    requires PeriodConfig(cfg) && PositiveDurations(cfg)
    ensures (forall events :: Timely(events) && Ticks(events) ==> Truthful(cfg, sl, events))
            <==> sl.ignored || !AnyLimit(sl) || cfg.timeout == 0
  {
    if sl.ignored || !AnyLimit(sl) {
      TruthfulIffNoLimit(cfg, sl);
    } else if cfg.timeout == 0 {
      forall events: seq<Event> | Timely(events) && Ticks(events) ensures Truthful(cfg, sl, events) {
        forall i: nat | i < |events| ensures !UntoldAt(cfg, sl, events, i) {
          LevelStaysZero(cfg, sl, events[..i]);
        }
        NoneUntoldHolds(cfg, sl, events);
      }
    } else {
      var events := TwiceThenOver(cfg, sl);
      TwiceThenOverUntold(cfg, sl);
      UntoldBreaks(cfg, sl, events, 3);
      var n: nat :| n <= |events| && !Truthful(cfg, sl, events[..n]);
      assert Timely(events[..n]) && Ticks(events[..n]);
    }
  }
}
