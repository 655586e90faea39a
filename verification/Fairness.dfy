/** Whoever is restricted did consume it: from the limits back to the readings of the threads. */
module Fairness {
  import opened Data
  import opened FifoStats
  import opened UserStats
  import opened Restriction
  import opened Accounts
  import opened Rounding
  import opened TidTable
  import Registry
  import Overcharge
  import Recent

  // ----- Samples are never negative -----

  ghost predicate Plausible(hists: map<Name, seq<Stats>>) {
    forall u :: u in hists ==> NonNegative(hists[u])
  }

  lemma CeilNonNegative(x: real)
    requires 0.0 <= x
    ensures 0 <= Ceil(x)
  {
    assert (-x).Floor as real <= -x;
  }

  lemma QuotientNonNegative(a: nat, tm: real)
    requires 1.0 <= tm
    ensures 0.0 <= a as real / tm
  {
  }

  lemma SampleNonNegative(c: Counter, now: real, clockTicks: nat)
    requires 0 < clockTicks && Overcharge.Sane(c)
    ensures SampleOf(c, now, clockTicks).NonNegative()
  {
    var dt := now - c.tm;
    if dt > 0.0 {
      var tm := if dt < 1.0 then 1.0 else dt;
      QuotientNonNegative(c.used.cpu, tm);
      QuotientNonNegative(c.used.read, tm);
      QuotientNonNegative(c.used.write, tm);
      CeilNonNegative(c.used.read as real / tm);
      CeilNonNegative(c.used.write as real / tm);
    }
  }

  lemma PlausibleStep(g: Overcharge.Governor, e: Overcharge.Event, clockTicks: nat)
    requires 0 < clockTicks && Overcharge.SaneCounters(g.tables.counters) && Plausible(g.hists)
    ensures Plausible(Overcharge.Step(g, e, clockTicks).hists)
  {
    if e.Tick? {
      var samples := Samples(g.tables.counters, e.now, clockTicks);
      forall u | u in samples ensures samples[u].NonNegative() {
        SampleNonNegative(g.tables.counters[u], e.now, clockTicks);
      }
      RecordedPlausible(g.hists, samples);
    }
  }

  lemma RecordedPlausible(hists: map<Name, seq<Stats>>, samples: map<Name, Stats>)
    requires Plausible(hists) && forall u :: u in samples ==> samples[u].NonNegative()
    ensures Plausible(Registry.Recorded(hists, samples))
  {
  }

  lemma {:induction false} PlausibleRun(events: seq<Overcharge.Event>, clockTicks: nat)
    requires 0 < clockTicks
    ensures Plausible(Overcharge.Run(events, clockTicks).hists)
    decreases |events|
  {
    if events != [] {
      var prefix := events[..|events| - 1];
      PlausibleRun(prefix, clockTicks);
      Overcharge.BooksBalance(prefix, "", Cpu, clockTicks);
      PlausibleStep(Overcharge.Run(prefix, clockTicks), events[|events| - 1], clockTicks);
    }
  }

  // ----- A window holds at most the whole history -----

  predicate AtMost(a: Stats, b: Stats) {
    a.cpu <= b.cpu && a.read <= b.read && a.write <= b.write
  }

  lemma {:induction false} HistoryNonNegative(hist: seq<Stats>)
    requires NonNegative(hist)
    ensures AtMost(ZERO_STATS, Sum(hist))
  {
    if hist != [] {
      HistoryNonNegative(hist[1..]);
    }
  }

  lemma {:induction false} WindowAtMost(hist: seq<Stats>, n: nat)
    requires NonNegative(hist)
    ensures AtMost(Sum(Newest(hist, n)), Sum(hist))
    decreases n
  {
    if n == 0 || hist == [] {
      SumOfZeros(Newest(hist, n));
      HistoryNonNegative(hist);
    } else {
      assert Newest(hist, n)[1..] == Newest(hist[1..], n - 1);
      WindowAtMost(hist[1..], n - 1);
      SumFirst(hist);
      SumFirst(Newest(hist, n));
    }
  }

  lemma SumFirst(s: seq<Stats>)
    requires s != []
    ensures Sum(s) == s[0].Plus(Sum(s[1..]))
  {
  }

  // ----- The users of an account together -----

  /** What the users' rings show of their newest n ticks, added up. */
  function WindowSum(hists: seq<seq<Stats>>, n: nat): Stats {
    if hists == [] then ZERO_STATS
    else WindowSum(hists[..|hists| - 1], n).Plus(Sum(Newest(hists[|hists| - 1], n)))
  }

  lemma {:induction false} WindowSumTotals(hists: seq<seq<Stats>>, n: nat, readSums: seq<nat>, writeSums: seq<nat>)
    requires readSums == ReadSums(hists, n) && writeSums == WriteSums(hists, n)
    ensures WindowSum(hists, n).read == Total(readSums) && WindowSum(hists, n).write == Total(writeSums)
  {
    if hists != [] {
      var k := |hists| - 1;
      assert ReadSums(hists, n)[..k] == ReadSums(hists[..k], n);
      assert WriteSums(hists, n)[..k] == WriteSums(hists[..k], n);
      WindowSumTotals(hists[..k], n, readSums[..k], writeSums[..k]);
    }
  }

  /** CPU averages are not truncated. */
  lemma {:induction false} ShownCpu(cfg: Config, hists: seq<seq<Stats>>, period: Period)
    requires Intervals(cfg)
    ensures Pick(SumUsages(PartsOf(cfg, hists)), period).cpu
            == WindowSum(hists, Window(cfg, period)).cpu / Window(cfg, period) as real
  {
    var n := Window(cfg, period);
    if hists == [] {
      assert PartsOf(cfg, hists) == [];
    } else {
      var k := |hists| - 1;
      ShownCpu(cfg, hists[..k], period);
      var parts := PartsOf(cfg, hists);
      assert parts[..k] == PartsOf(cfg, hists[..k]);
      CpuOfOne(cfg, hists[k], period);
      QuotientsAdd(WindowSum(hists[..k], n).cpu, Sum(Newest(hists[k], n)).cpu, n);
    }
  }

  lemma QuotientsAdd(a: real, b: real, n: nat)
    requires 0 < n
    ensures (a + b) / n as real == a / n as real + b / n as real
  {
  }

  lemma CpuOfOne(cfg: Config, hist: seq<Stats>, period: Period)
    requires Intervals(cfg)
    ensures var n := Window(cfg, period);
            Pick(ContributionOf(cfg, hist), period).cpu == Sum(Newest(hist, n)).cpu / n as real
  {
    SumOfOne(Newest(hist, 1));
  }

  /** What the threads of some users consumed together after the first i events of a run. */
  function Consumed(events: seq<Overcharge.Event>, i: nat, members: seq<Name>, k: Resource): int
    requires i <= |events|
  {
    if members == [] then 0
    else
      var m := |members| - 1;
      Consumed(events, i, members[..m], k) + Recent.Since(events, i, members[m], k)
  }

  function HistoriesOf(hists: map<Name, seq<Stats>>, members: seq<Name>): seq<seq<Stats>>
    requires forall n :: n in members ==> n in hists
  {
    seq(|members|, i requires 0 <= i < |members| => hists[members[i]])
  }

  lemma AmountMonotone(a: Stats, b: Stats, k: Resource, clockTicks: nat)
    requires AtMost(a, b)
    ensures Overcharge.AmountOf(a, k, clockTicks) <= Overcharge.AmountOf(b, k, clockTicks)
  {
    if k == Cpu {
      assert 0.0 <= (b.cpu - a.cpu) * clockTicks as real;
    }
  }

  lemma PrefixNonNegative(part: seq<Stats>, hist: seq<Stats>)
    requires part <= hist && NonNegative(hist)
    ensures NonNegative(part)
  {
    forall i | 0 <= i < |part| ensures part[i].NonNegative() {
      assert part[i] == hist[i];
    }
  }

  /** What the ring of one user shows of a window is at most what its threads consumed since the window
      began. */
  lemma WindowConsumed(events: seq<Overcharge.Event>, clockTicks: nat, u: Name, n: nat, k: Resource)
    requires 0 < clockTicks && u in Overcharge.Run(events, clockTicks).hists
    ensures var hist := Overcharge.Run(events, clockTicks).hists[u];
            Overcharge.AmountOf(Sum(Newest(hist, n)), k, clockTicks)
            <= Recent.Since(events, Recent.WindowStart(events, n), u, k) as real
  {
    var i := Recent.WindowStart(events, n);
    var g := Overcharge.RunFrom(Recent.Emptied(Overcharge.Run(events[..i], clockTicks)), events[i..], clockTicks);
    PlausibleRun(events, clockTicks);
    Recent.WindowStartMeaning(events, n);
    Recent.WindowIsRecent(events, u, n, clockTicks);
    PrefixNonNegative(g.hists[u], Overcharge.Run(events, clockTicks).hists[u]);
    WindowAtMost(g.hists[u], n);
    AmountMonotone(Sum(Newest(g.hists[u], n)), Sum(g.hists[u]), k, clockTicks);
    Recent.NeverOverchargesSince(events, i, u, k, clockTicks);
  }

  /** So is the window of an account. */
  lemma {:induction false} WindowsConsumed(events: seq<Overcharge.Event>, clockTicks: nat, members: seq<Name>, n: nat,
                                           k: Resource)
    requires 0 < clockTicks && forall m :: m in members ==> m in Overcharge.Run(events, clockTicks).hists
    ensures var hists := HistoriesOf(Overcharge.Run(events, clockTicks).hists, members);
            Overcharge.AmountOf(WindowSum(hists, n), k, clockTicks)
            <= Consumed(events, Recent.WindowStart(events, n), members, k) as real
    decreases |members|
  {
    var all := Overcharge.Run(events, clockTicks).hists;
    if members == [] {
      Overcharge.AmountPlus(ZERO_STATS, ZERO_STATS, k, clockTicks);
    } else {
      var m := |members| - 1;
      assert HistoriesOf(all, members)[..m] == HistoriesOf(all, members[..m]);
      WindowsConsumed(events, clockTicks, members[..m], n, k);
      WindowConsumed(events, clockTicks, members[m], n, k);
      var init := HistoriesOf(all, members[..m]);
      Overcharge.AmountPlus(WindowSum(init, n), Sum(Newest(all[members[m]], n)), k, clockTicks);
    }
  }

  // ----- From the restriction to the readings -----

  /** Since the newest n ticks of the run began, the threads consumed more than an enabled limit allows
      over n ticks; CPU limits are percentages. */
  predicate TrulyOver(limit: Limit, field: Field, n: nat, events: seq<Overcharge.Event>, members: seq<Name>,
                      clockTicks: nat)
  {
    var i := Recent.WindowStart(events, n);
    match field
    case CPU_PARAM =>
      && 0 <= limit.cpu
      && limit.cpu as real * n as real * clockTicks as real < 100.0 * Consumed(events, i, members, Cpu) as real
    case READ_PARAM => 0 <= limit.read && limit.read * n < Consumed(events, i, members, Read)
    case WRITE_PARAM => 0 <= limit.write && limit.write * n < Consumed(events, i, members, Write)
    case _ => false
  }

  lemma CauseIsOver(u: Usage, sl: Limits)
    requires Cause(u, sl).0 != NO_PERIOD
    ensures var (period, field) := Cause(u, sl);
            field != NORESTRICT_PARAM2 && field == IsStatOverlimit(Pick(u, period), LimitOf(sl, period))
  {
  }

  lemma CpuOver(shown: real, sum: real, limit: int, n: nat, clockTicks: nat)
    requires 0 < n && 0 < clockTicks && 0 <= limit
    requires shown == sum / n as real && shown > limit as real / 100.0
    ensures limit as real * n as real * clockTicks as real < 100.0 * (sum * clockTicks as real)
  {
    assert shown * n as real == sum;
    assert limit as real < 100.0 * shown;
    RealMulLess(limit as real, 100.0 * shown, n as real);
    RealMulLess(limit as real * n as real, 100.0 * shown * n as real, clockTicks as real);
    assert 100.0 * shown * n as real == 100.0 * sum;
  }

  lemma RealMulLess(a: real, b: real, c: real)
    requires a < b && 0.0 < c
    ensures a * c < b * c
  {
    assert 0.0 < (b - a) * c;
  }

  lemma PartsAreHistories(cfg: Config, hists: map<Name, seq<Stats>>, members: seq<Name>)
    requires Intervals(cfg) && forall m :: m in members ==> m in hists
    ensures Registry.Parts(members, Registry.Contributions(cfg, hists)) == PartsOf(cfg, HistoriesOf(hists, members))
  {
  }

  lemma ReadsOver(cfg: Config, hists: seq<seq<Stats>>, period: Period, limit: nat)
    requires Intervals(cfg) && Users(hists)
    ensures var shown, n := Pick(SumUsages(PartsOf(cfg, hists)), period), Window(cfg, period);
            && (shown.read > limit ==> WindowSum(hists, n).read > limit * n)
            && (shown.write > limit ==> WindowSum(hists, n).write > limit * n)
  {
    var readSums, writeSums := NeverRestrictedByRounding(cfg, hists, period, limit);
    WindowSumTotals(hists, Window(cfg, period), readSums, writeSums);
  }

  lemma CauseIsTrue(cfg: Config, hists: seq<seq<Stats>>, period: Period, limit: Limit, field: Field,
                    events: seq<Overcharge.Event>, members: seq<Name>, clockTicks: nat)
    requires 0 < clockTicks && Intervals(cfg) && Users(hists) && field != NORESTRICT_PARAM2
    requires field == IsStatOverlimit(Pick(SumUsages(PartsOf(cfg, hists)), period), limit)
    requires var n := Window(cfg, period);
             forall k: Resource :: Overcharge.AmountOf(WindowSum(hists, n), k, clockTicks)
                                   <= Consumed(events, Recent.WindowStart(events, n), members, k) as real
    ensures TrulyOver(limit, field, Window(cfg, period), events, members, clockTicks)
  {
    var shown, sum := Pick(SumUsages(PartsOf(cfg, hists)), period), WindowSum(hists, Window(cfg, period));
    ShownCpu(cfg, hists, period);
    if 0 <= limit.read {
      ReadsOver(cfg, hists, period, limit.read);
    }
    if 0 <= limit.write {
      ReadsOver(cfg, hists, period, limit.write);
    }
    OverShown(shown, sum, limit, field, Window(cfg, period), events, members, clockTicks);
  }

  lemma OverShown(shown: Stats, sum: Stats, limit: Limit, field: Field, n: nat, events: seq<Overcharge.Event>,
                  members: seq<Name>, clockTicks: nat)
    requires 0 < n && 0 < clockTicks && field == IsStatOverlimit(shown, limit) && field != NORESTRICT_PARAM2
    requires shown.cpu == sum.cpu / n as real
    requires 0 <= limit.read < shown.read ==> sum.read > limit.read * n
    requires 0 <= limit.write < shown.write ==> sum.write > limit.write * n
    requires forall k: Resource :: Overcharge.AmountOf(sum, k, clockTicks)
                                   <= Consumed(events, Recent.WindowStart(events, n), members, k) as real
    ensures TrulyOver(limit, field, n, events, members, clockTicks)
  {
    if field == CPU_PARAM {
      CpuOver(shown.cpu, sum.cpu, limit.cpu, n, clockTicks);
      assert Overcharge.AmountOf(sum, Cpu, clockTicks) == sum.cpu * clockTicks as real;
    } else if field == READ_PARAM {
      assert Overcharge.AmountOf(sum, Read, clockTicks) == sum.read as real;
    } else {
      assert Overcharge.AmountOf(sum, Write, clockTicks) == sum.write as real;
    }
  }

  /** The usage that a tick sees of an account with these users. */
  function UsageOf(cfg: Config, hists: map<Name, seq<Stats>>, members: seq<Name>): Usage
    requires Intervals(cfg) && forall m :: m in members ==> m in hists
  {
    SumUsages(Registry.Parts(members, Registry.Contributions(cfg, hists)))
  }

  /** No tick finds a cause to restrict an account unless the threads of its users really consumed more
      than that limit allows over that window: by the readings taken since the window began, the
      first of them measured from the one taken last before. */
  lemma CauseMeansConsumed(cfg: Config, sl: Limits, events: seq<Overcharge.Event>, clockTicks: nat, members: seq<Name>)
    requires 0 < clockTicks && Intervals(cfg) && members != []
    requires forall m :: m in members ==> m in Overcharge.Run(events, clockTicks).hists
    requires OverLimit(UsageOf(cfg, Overcharge.Run(events, clockTicks).hists, members), sl)
    ensures var (period, field) := Cause(UsageOf(cfg, Overcharge.Run(events, clockTicks).hists, members), sl);
            TrulyOver(LimitOf(sl, period), field, Window(cfg, period), events, members, clockTicks)
  {
    var all := Overcharge.Run(events, clockTicks).hists;
    var u := UsageOf(cfg, all, members);
    var hists := HistoriesOf(all, members);
    CauseMeaning(u, sl);
    CauseIsOver(u, sl);
    PartsAreHistories(cfg, all, members);
    PlausibleRun(events, clockTicks);
    var (period, field) := Cause(u, sl);
    forall k: Resource
      ensures Overcharge.AmountOf(WindowSum(hists, Window(cfg, period)), k, clockTicks)
              <= Consumed(events, Recent.WindowStart(events, Window(cfg, period)), members, k) as real
    {
      WindowsConsumed(events, clockTicks, members, Window(cfg, period), k);
    }
    CauseIsTrue(cfg, hists, period, LimitOf(sl, period), field, events, members, clockTicks);
  }

  /** In either mode, whatever the account's state: a tick that sends its users FREEZE sends it to users
      whose threads consumed, within one of the windows, more than the limit for that window allows. */
  lemma FrozenMeansConsumed(cfg: Config, sl: Limits, events: seq<Overcharge.Event>, clockTicks: nat,
                            members: seq<Name>, a: Acc, r: Readings)
    requires 0 < clockTicks && Intervals(cfg) && members != []
    requires forall m :: m in members ==> m in Overcharge.Run(events, clockTicks).hists
    requires var u := UsageOf(cfg, Overcharge.Run(events, clockTicks).hists, members);
             FREEZE in Step(cfg, sl, a, Tick(u, r)).out
    ensures var (period, field) := Cause(UsageOf(cfg, Overcharge.Run(events, clockTicks).hists, members), sl);
            TrulyOver(LimitOf(sl, period), field, Window(cfg, period), events, members, clockTicks)
  {
    var u := UsageOf(cfg, Overcharge.Run(events, clockTicks).hists, members);
    CauseMeaning(u, sl);
    FreezeHasCause(cfg, sl, a, u, r);
    CauseMeansConsumed(cfg, sl, events, clockTicks, members);
  }

  lemma FreezeHasCause(cfg: Config, sl: Limits, a: Acc, u: Usage, r: Readings)
    requires FREEZE in Step(cfg, sl, a, Tick(u, r)).out
    ensures Cause(u, sl).0 != NO_PERIOD
  {
  }
}
