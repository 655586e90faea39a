/** Limit mode over whole runs of ticks and dbctl commands. */
module LimitMode {
  import opened Data
  import opened Restriction

  /** The event restricts the account, from the reading r.start on. */
  ghost predicate Marks(sl: Limits, e: Event) {
    e.Restrict? || (e.Tick? && !sl.ignored && OverLimit(e.usage, sl))
  }

  /** The event ends a restriction that began, or was last renewed, at time u. */
  ghost predicate Lifts(cfg: Config, sl: Limits, e: Event, u: int) {
    match e
    case Tick(_, r) => !sl.ignored && cfg.lUnlimit != 0 && u + cfg.lUnlimit <= r.now
    case Restrict(_, _) => false
    case Unrestrict(_) => true
    case UnrestrictAll(_) => true
  }

  /** The i-th event restricted the account and nothing has lifted that since. */
  ghost predicate InForce(cfg: Config, sl: Limits, events: seq<Event>, i: int) {
    && 0 <= i < |events|
    && Marks(sl, events[i])
    && forall j :: i < j < |events| ==> !Lifts(cfg, sl, events[j], events[i].r.start)
  }

  ghost predicate LimitConfig(cfg: Config) {
    cfg.Throttling() && cfg.restrictMode
  }

  /** What holds of the account's fields, event by event. */
  ghost predicate Explained(cfg: Config, sl: Limits, events: seq<Event>) {
    var a := Run(cfg, sl, events);
    if a.restricted == 0 then
      a.timeout == 0 && a.startCount == 0 && forall i :: !InForce(cfg, sl, events, i)
    else
      && a.restricted == LIMIT_MODE_RESTRICTED && a.timeout == cfg.lUnlimit && 1 <= a.startCount
      && (exists i :: InForce(cfg, sl, events, i) && events[i].r.start == a.startCount)
      && (forall i :: InForce(cfg, sl, events, i) ==> events[i].r.start <= a.startCount)
  }

  lemma InForceStep(cfg: Config, sl: Limits, events: seq<Event>, e: Event, i: int)
    ensures i < |events| ==>
              (InForce(cfg, sl, events + [e], i) <==>
               InForce(cfg, sl, events, i) && !Lifts(cfg, sl, e, events[i].r.start))
    ensures InForce(cfg, sl, events + [e], |events|) <==> Marks(sl, e)
  {
    var all := events + [e];
    assert all[|events|] == e;
    if 0 <= i < |events| {
      assert all[i] == events[i];
      assert forall j :: i < j < |events| ==> all[j] == events[j];
      if InForce(cfg, sl, all, i) {
        assert !Lifts(cfg, sl, all[|events|], events[i].r.start);
      }
    }
  }

  /** An event that marks: its own reading explains the account. */
  lemma ExplainedByMark(cfg: Config, sl: Limits, events: seq<Event>, e: Event)
    requires LimitConfig(cfg) && Timely(events + [e])
    requires Explained(cfg, sl, events) && Marks(sl, e)
    ensures Explained(cfg, sl, events + [e])
  {
    var all := events + [e];
    assert all[..|events|] == events && all[|events|] == e;
    assert e.r.InOrder();
    if e.Tick? {
      CauseMeaning(e.usage, sl);
    }
    InForceStep(cfg, sl, events, e, |events|);
    assert InForce(cfg, sl, all, |events|) && all[|events|].r.start == Run(cfg, sl, all).startCount;
    forall i | InForce(cfg, sl, all, i) ensures all[i].r.start <= e.r.start {
      if i < |events| {
        assert all[i].r.start <= all[|events|].r.now;
      }
    }
  }

  /** An event that lifts every restriction in force leaves none. */
  lemma ExplainedByLift(cfg: Config, sl: Limits, events: seq<Event>, e: Event)
    requires LimitConfig(cfg) && Timely(events + [e])
    requires Explained(cfg, sl, events) && !Marks(sl, e)
    requires forall i :: InForce(cfg, sl, events, i) ==> Lifts(cfg, sl, e, events[i].r.start)
    ensures Explained(cfg, sl, events + [e])
  {
    var all := events + [e];
    assert all[..|events|] == events && all[|events|] == e;
    forall i ensures !InForce(cfg, sl, all, i) {
      InForceStep(cfg, sl, events, e, i);
    }
    if e.Tick? {
      CauseMeaning(e.usage, sl);
    } else {
      NoUsageNoCause(sl);
    }
  }

  /** An event that neither marks nor lifts the newest restriction changes nothing. */
  lemma ExplainedByRest(cfg: Config, sl: Limits, events: seq<Event>, e: Event, last: int)
    requires LimitConfig(cfg) && Timely(events + [e])
    requires Explained(cfg, sl, events) && !Marks(sl, e)
    requires InForce(cfg, sl, events, last) && events[last].r.start == Run(cfg, sl, events).startCount
    requires !Lifts(cfg, sl, e, events[last].r.start)
    ensures Explained(cfg, sl, events + [e])
  {
    var all := events + [e];
    assert all[..|events|] == events && all[|events|] == e;
    CauseMeaning(e.usage, sl);
    InForceStep(cfg, sl, events, e, last);
    assert InForce(cfg, sl, all, last) && all[last].r.start == Run(cfg, sl, all).startCount;
    forall i | InForce(cfg, sl, all, i) ensures all[i].r.start <= Run(cfg, sl, all).startCount {
      InForceStep(cfg, sl, events, e, i);
      assert InForce(cfg, sl, events, i);
    }
  }

  lemma {:induction false} AlwaysExplained(cfg: Config, sl: Limits, events: seq<Event>)
    requires LimitConfig(cfg) && Timely(events)
    ensures Explained(cfg, sl, events)
  {
    if events != [] {
      var prefix, e := events[..|events| - 1], events[|events| - 1];
      assert events == prefix + [e];
      AlwaysExplained(cfg, sl, prefix);
      if Marks(sl, e) {
        ExplainedByMark(cfg, sl, prefix, e);
      } else if forall i :: InForce(cfg, sl, prefix, i) ==> Lifts(cfg, sl, e, prefix[i].r.start) {
        ExplainedByLift(cfg, sl, prefix, e);
      } else {
        var i :| InForce(cfg, sl, prefix, i) && !Lifts(cfg, sl, e, prefix[i].r.start);
        var last :| InForce(cfg, sl, prefix, last) && prefix[last].r.start == Run(cfg, sl, prefix).startCount;
        ExplainedByRest(cfg, sl, prefix, e, last);
      }
    }
  }

  /** The closed form: at any point of any run the account is restricted if and only if some
      over-limit tick or dbctl restrict is still in force. */
  lemma RestrictedIffInForce(cfg: Config, sl: Limits, events: seq<Event>)
    requires LimitConfig(cfg) && Timely(events)
    ensures Run(cfg, sl, events).restricted != 0 <==> exists i :: InForce(cfg, sl, events, i)
  {
    AlwaysExplained(cfg, sl, events);
  }

  /** No dbctl unrestrict follows the i-th event. */
  ghost predicate NoUnrestrictAfter(events: seq<Event>, i: int) {
    forall j :: 0 <= i < j < |events| ==> !events[j].Unrestrict? && !events[j].UnrestrictAll?
  }

  /** The i-th event restricted the account less than a window before t, and no unrestrict followed. */
  ghost predicate InWindow(cfg: Config, sl: Limits, events: seq<Event>, i: int, t: int) {
    && 0 <= i < |events|
    && Marks(sl, events[i])
    && NoUnrestrictAfter(events, i)
    && (cfg.lUnlimit == 0 || t < events[i].r.start + cfg.lUnlimit)
  }

  /** The same right after a tick at time t, as the window a user waits out: some over-limit tick or
      dbctl restrict at a time u since the last unrestrict has t < u + l_unlimit. Without a
      window (l_unlimit 0) ticks never release. */
  lemma RestrictedAfterTick(cfg: Config, sl: Limits, events: seq<Event>)
    requires LimitConfig(cfg) && Timely(events) && !sl.ignored
    requires events != [] && events[|events| - 1].Tick?
    ensures var t := events[|events| - 1].r.now;
            Run(cfg, sl, events).restricted != 0 <==> exists i :: InWindow(cfg, sl, events, i, t)
  {
    RestrictedIffInForce(cfg, sl, events);
    var t := events[|events| - 1].r.now;
    if Run(cfg, sl, events).restricted != 0 {
      var i :| InForce(cfg, sl, events, i);
      if i < |events| - 1 {
        assert !Lifts(cfg, sl, events[|events| - 1], events[i].r.start);
      } else {
        assert events[i].r.InOrder();
      }
      assert InWindow(cfg, sl, events, i, t);
    }
    if i :| InWindow(cfg, sl, events, i, t) {
      forall j | i < j < |events| ensures !Lifts(cfg, sl, events[j], events[i].r.start) {
        if j < |events| - 1 {
          assert events[j].r.start <= t && events[j].r.InOrder();
        }
      }
      assert InForce(cfg, sl, events, i);
    }
  }

  // ----- What the account's users are sent -----

  /** Limit mode knows two states only. Nothing is asked of the clock here. */
  predicate TwoStates(cfg: Config, a: Acc) {
    || (a.restricted == 0 && a.timeout == 0)
    || (a.restricted == LIMIT_MODE_RESTRICTED && a.timeout == cfg.lUnlimit)
  }

  /** A step queues at most one batch, and the batch tells what the account has become. */
  lemma BatchTells(cfg: Config, sl: Limits, a: Acc, e: Event)
    requires LimitConfig(cfg) && TwoStates(cfg, a)
    ensures TwoStates(cfg, Step(cfg, sl, a, e).acc)
    ensures var o := Step(cfg, sl, a, e);
            && (o.out == [] || o.out == [FREEZE] || o.out == [UNFREEZE])
            && (o.out == [FREEZE] ==> o.acc.restricted != 0)
            && (o.out == [UNFREEZE] ==> o.acc.restricted == 0)
            && (o.out == [] && 0 < cfg.lUnlimit ==> (o.acc.restricted != 0 <==> a.restricted != 0))
  {
    NoUsageNoCause(sl);
  }

  /** What a restriction in limit mode is put down to: the first limit exceeded, or for dbctl restrict the
      current period and the first resource over its limit there, if any. */
  lemma MarkNamesCause(cfg: Config, sl: Limits, events: seq<Event>, e: Event)
    requires LimitConfig(cfg) && Timely(events) && Marks(sl, e)
    ensures var a := Run(cfg, sl, events);
            var b := Step(cfg, sl, a, e).acc;
            && b.restricted == LIMIT_MODE_RESTRICTED && b.timeout == cfg.lUnlimit && b.startCount == e.r.start
            && b.usage == (if e.Tick? then e.usage else a.usage)
            && (b.period, b.field) == if e.Tick? then Cause(e.usage, sl)
                                      else (CURRENT_PERIOD, IsStatOverlimit(a.usage.current, sl.current))
  {
    AlwaysExplained(cfg, sl, events);
    if e.Tick? {
      CauseMeaning(e.usage, sl);
    }
  }

  lemma {:induction false} SentAgrees(cfg: Config, sl: Limits, events: seq<Event>)
    requires LimitConfig(cfg) && 0 < cfg.lUnlimit
    ensures TwoStates(cfg, Run(cfg, sl, events))
    ensures Run(cfg, sl, events).restricted != 0 <==> EndsFrozen(Sent(cfg, sl, events))
  {
    if events != [] {
      var prefix := events[..|events| - 1];
      SentAgrees(cfg, sl, prefix);
      BatchTells(cfg, sl, Run(cfg, sl, prefix), events[|events| - 1]);
    }
  }

  /** Without a window, "unrestrict all" forgets the restriction and does not tell the users. */
  function SilentRun(): seq<Event> {
    var r := Readings(1, 1, 1, 1);
    [Restrict(-1, r), UnrestrictAll(r)]
  }

  lemma SilentUnrestrictAll(cfg: Config, sl: Limits)
    requires LimitConfig(cfg) && cfg.lUnlimit == 0
    ensures Timely(SilentRun())
    ensures Run(cfg, sl, SilentRun()).restricted == 0
    ensures Sent(cfg, sl, SilentRun()) == [FREEZE]
  {
    var run := SilentRun();
    assert run[..1] == [run[0]] && run[..1][..0] == [];
    assert Run(cfg, sl, []) == FRESH;
    assert Sent(cfg, sl, []) == [];
    var one := Run(cfg, sl, run[..1]);
    assert one.restricted != 0 && one.timeout == 0;
    assert Sent(cfg, sl, run[..1]) == [FREEZE];
  }

  /** What the users were last told agrees with the account in every run, if and only if the
      configuration has a nonzero unlimit window. */
  lemma SentAgreesIffWindow(cfg: Config, sl: Limits)
    requires LimitConfig(cfg)
    ensures 0 < cfg.lUnlimit <==>
            forall events :: Timely(events) ==>
              (Run(cfg, sl, events).restricted != 0 <==> EndsFrozen(Sent(cfg, sl, events)))
  {
    if 0 < cfg.lUnlimit {
      forall events | Timely(events)
        ensures Run(cfg, sl, events).restricted != 0 <==> EndsFrozen(Sent(cfg, sl, events))
      {
        SentAgrees(cfg, sl, events);
      }
    } else {
      SilentUnrestrictAll(cfg, sl);
    }
  }
}
