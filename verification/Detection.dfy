/** The converse of Fairness: who consumes more than a limit allows is found over limit. */
module Detection {
  import opened Data
  import opened FifoStats
  import opened UserStats
  import opened Restriction
  import opened Accounts
  import opened Rounding
  import opened TidTable
  import opened Fairness
  import Overcharge
  import Recent
  import U = Undercharge

  /** What the ticks of a window found in the counters of some users, and what they recorded for them. */
  function HeldBy(events: seq<Overcharge.Event>, i: nat, members: seq<Name>, k: Resource, clockTicks: nat): int
    requires 0 < clockTicks && i <= |events|
  {
    if members == [] then 0
    else
      var m := |members| - 1;
      HeldBy(events, i, members[..m], k, clockTicks) + U.HeldSince(events, i, members[m], k, clockTicks)
  }

  function RecordedBy(events: seq<Overcharge.Event>, i: nat, members: seq<Name>, k: Resource, clockTicks: nat): real
    requires 0 < clockTicks && i <= |events|
  {
    if members == [] then 0.0
    else
      var m := |members| - 1;
      RecordedBy(events, i, members[..m], k, clockTicks) + U.RecordedSince(events, i, members[m], k, clockTicks)
  }

  lemma {:induction false} RecordedCoversHeld(events: seq<Overcharge.Event>, i: nat, members: seq<Name>, k: Resource,
                                              clockTicks: nat, seconds: real)
    requires 0 < clockTicks && i <= |events| && 1.0 <= seconds
    requires forall m :: m in members ==> U.TicksWithin(events, i, m, clockTicks, seconds)
    ensures U.Covers(RecordedBy(events, i, members, k, clockTicks), HeldBy(events, i, members, k, clockTicks), seconds)
    decreases |members|
  {
    if members == [] {
      U.Nothing(seconds);
    } else {
      var m := |members| - 1;
      RecordedCoversHeld(events, i, members[..m], k, clockTicks, seconds);
      U.RecordedCovers(events, i, members[m], k, clockTicks, seconds);
      U.AddUp(HeldBy(events, i, members[..m], k, clockTicks), U.HeldSince(events, i, members[m], k, clockTicks),
              RecordedBy(events, i, members[..m], k, clockTicks),
              U.RecordedSince(events, i, members[m], k, clockTicks), seconds);
    }
  }

  /** The rings show exactly what was recorded since the window began. */
  lemma {:induction false} WindowsRecorded(events: seq<Overcharge.Event>, clockTicks: nat, members: seq<Name>, n: nat,
                                           k: Resource)
    requires 0 < clockTicks && forall m :: m in members ==> m in Overcharge.Run(events, clockTicks).hists
    ensures var hists := HistoriesOf(Overcharge.Run(events, clockTicks).hists, members);
            Overcharge.AmountOf(WindowSum(hists, n), k, clockTicks)
            == RecordedBy(events, Recent.WindowStart(events, n), members, k, clockTicks)
    decreases |members|
  {
    var all := Overcharge.Run(events, clockTicks).hists;
    if members == [] {
      Overcharge.AmountPlus(ZERO_STATS, ZERO_STATS, k, clockTicks);
    } else {
      var m := |members| - 1;
      var hists := HistoriesOf(all, members);
      assert hists[..m] == HistoriesOf(all, members[..m]) && hists[m] == all[members[m]];
      WindowsRecorded(events, clockTicks, members[..m], n, k);
      Recent.WindowIsRecorded(events, members[m], n, k, clockTicks);
      WindowSumLast(hists, n, k, clockTicks);
      RecordedByLast(events, Recent.WindowStart(events, n), members, k, clockTicks);
    }
  }

  lemma RecordedByLast(events: seq<Overcharge.Event>, i: nat, members: seq<Name>, k: Resource, clockTicks: nat)
    requires 0 < clockTicks && i <= |events| && members != []
    ensures var m := |members| - 1;
            RecordedBy(events, i, members, k, clockTicks)
            == RecordedBy(events, i, members[..m], k, clockTicks)
               + (Overcharge.Pushed(Overcharge.Run(events, clockTicks).hists, members[m], k, clockTicks)
                  - Overcharge.Pushed(Overcharge.Run(events[..i], clockTicks).hists, members[m], k, clockTicks))
  {
  }

  lemma WindowSumLast(hists: seq<seq<Stats>>, n: nat, k: Resource, clockTicks: nat)
    requires hists != []
    ensures var m := |hists| - 1;
            Overcharge.AmountOf(WindowSum(hists, n), k, clockTicks)
            == Overcharge.AmountOf(WindowSum(hists[..m], n), k, clockTicks)
               + Overcharge.AmountOf(Sum(Newest(hists[m], n)), k, clockTicks)
  {
    var m := |hists| - 1;
    Overcharge.AmountPlus(WindowSum(hists[..m], n), Sum(Newest(hists[m], n)), k, clockTicks);
  }

  // ----- From the window to the limit -----

  /** What a limit on reads or writes allows m users over n ticks, and what truncation can hide besides: one
      unit per user and tick but the first. */
  function Allowance(limit: int, n: nat, m: nat): int {
    limit * n + m * (n - 1)
  }

  /** The amount is more than the allowed one even if it took so many seconds per tick. */
  predicate Tops(amount: int, allowed: int, seconds: real) {
    allowed as real * seconds < amount as real
  }

  predicate TopsCpu(amount: int, limit: int, n: nat, clockTicks: nat, seconds: real) {
    limit as real * n as real * clockTicks as real * seconds < 100.0 * amount as real
  }

  /** More than a limit allows m users over n ticks that are so many seconds apart. */
  predicate Excessive(limit: Limit, k: Resource, n: nat, m: nat, clockTicks: nat, seconds: real, amount: int) {
    match k
    case Cpu => 0 <= limit.cpu && TopsCpu(amount, limit.cpu, n, clockTicks, seconds)
    case Read => 0 <= limit.read && Tops(amount, Allowance(limit.read, n, m), seconds)
    case Write => 0 <= limit.write && Tops(amount, Allowance(limit.write, n, m), seconds)
  }

  lemma SumAboveLimit(sum: int, low: int, seconds: real, amount: int)
    requires 0.0 < seconds && U.Covers(sum as real, amount, seconds) && Tops(amount, low, seconds)
    ensures low < sum
  {
    U.CoversMeans(sum as real, amount, seconds);
    if sum <= low {
      U.ProductAtMost(sum as real, low as real, seconds, sum as real * seconds, low as real * seconds);
    }
  }

  /** A total beyond what truncation can hide is reported above the limit. */
  lemma ReportedAbove(sums: seq<nat>, n: nat, limit: nat)
    requires 0 < n && Allowance(limit, n, |sums|) < Total(sums)
    ensures limit < Reported(sums, n)
  {
    TotalBounds(sums, n);
    assert limit * n == n * limit;
    MulCancels(n, limit, Reported(sums, n));
  }

  lemma CpuAbove(sum: real, limit: int, n: nat, clockTicks: nat, seconds: real, amount: int)
    requires 0 < n && 0 < clockTicks && 0.0 < seconds && 0 <= limit
    requires U.Covers(sum * clockTicks as real, amount, seconds)
    requires TopsCpu(amount, limit, n, clockTicks, seconds)
    ensures limit as real < 100.0 * (sum / n as real)
  {
    U.CoversMeans(sum * clockTicks as real, amount, seconds);
    var shown := sum / n as real;
    U.Quotient(sum, n as real);
    assert shown * n as real == sum;
    if 100.0 * shown <= limit as real {
      CpuBelow(shown, limit as real, n as real, clockTicks as real, seconds);
    }
  }

  lemma CpuBelow(shown: real, limit: real, n: real, ticks: real, seconds: real)
    requires 100.0 * shown <= limit && 0.0 < n && 0.0 < ticks && 0.0 < seconds
    ensures 100.0 * (shown * n * ticks * seconds) <= limit * n * ticks * seconds
  {
    U.ProductAtMost(100.0 * shown, limit, n, 100.0 * shown * n, limit * n);
    U.ProductAtMost(100.0 * shown * n, limit * n, ticks, 100.0 * shown * n * ticks, limit * n * ticks);
    U.ProductAtMost(100.0 * shown * n * ticks, limit * n * ticks, seconds, 100.0 * shown * n * ticks * seconds,
                    limit * n * ticks * seconds);
    Hundred(shown, n, ticks, seconds);
  }

  lemma Hundred(shown: real, n: real, ticks: real, seconds: real)
    ensures 100.0 * (shown * n * ticks * seconds) == 100.0 * shown * n * ticks * seconds
  {
  }

  /** What the rings of m users show of a window, if it covers an excessive amount, is over the limit. */
  lemma ShownOver(cfg: Config, hists: seq<seq<Stats>>, period: Period, limit: Limit, k: Resource, clockTicks: nat,
                  seconds: real, amount: int)
    requires 0 < clockTicks && Intervals(cfg) && Users(hists) && 0.0 < seconds
    requires U.Covers(Overcharge.AmountOf(WindowSum(hists, Window(cfg, period)), k, clockTicks), amount, seconds)
    requires Excessive(limit, k, Window(cfg, period), |hists|, clockTicks, seconds, amount)
    ensures Exceeds(Pick(SumUsages(PartsOf(cfg, hists)), period), limit)
  {
    ShownCpu(cfg, hists, period);
    if 0 <= limit.read {
      ShownReads(cfg, hists, period, limit.read);
    }
    if 0 <= limit.write {
      ShownReads(cfg, hists, period, limit.write);
    }
    SumOver(WindowSum(hists, Window(cfg, period)), Pick(SumUsages(PartsOf(cfg, hists)), period), limit, k,
            Window(cfg, period), |hists|, clockTicks, seconds, amount);
  }

  lemma SumOver(sum: Stats, shown: Stats, limit: Limit, k: Resource, n: nat, m: nat, clockTicks: nat, seconds: real,
                amount: int)
    requires 0 < n && 0 < clockTicks && 0.0 < seconds && shown.cpu == sum.cpu / n as real
    requires 0 <= limit.read && Allowance(limit.read, n, m) < sum.read ==> limit.read < shown.read
    requires 0 <= limit.write && Allowance(limit.write, n, m) < sum.write ==> limit.write < shown.write
    requires U.Covers(Overcharge.AmountOf(sum, k, clockTicks), amount, seconds)
    requires Excessive(limit, k, n, m, clockTicks, seconds, amount)
    ensures Exceeds(shown, limit)
  {
    match k
    case Cpu => CpuAbove(sum.cpu, limit.cpu, n, clockTicks, seconds, amount);
    case Read => SumAboveLimit(sum.read, Allowance(limit.read, n, m), seconds, amount);
    case Write => SumAboveLimit(sum.write, Allowance(limit.write, n, m), seconds, amount);
  }

  lemma ShownReads(cfg: Config, hists: seq<seq<Stats>>, period: Period, limit: nat)
    requires Intervals(cfg) && Users(hists)
    ensures var n := Window(cfg, period);
            var shown, sum := Pick(SumUsages(PartsOf(cfg, hists)), period), WindowSum(hists, n);
            && (Allowance(limit, n, |hists|) < sum.read ==> limit < shown.read)
            && (Allowance(limit, n, |hists|) < sum.write ==> limit < shown.write)
  {
    var n := Window(cfg, period);
    var readSums, writeSums := AverageRounding(cfg, hists, period);
    ShownIsReported(cfg, hists, period, readSums, writeSums);
    WindowSumTotals(hists, n, readSums, writeSums);
    if Allowance(limit, n, |hists|) < Total(readSums) {
      ReportedAbove(readSums, n, limit);
    }
    if Allowance(limit, n, |hists|) < Total(writeSums) {
      ReportedAbove(writeSums, n, limit);
    }
  }

  lemma OverInPeriod(u: Usage, sl: Limits, period: Period)
    requires period != NO_PERIOD && Exceeds(Pick(u, period), LimitOf(sl, period))
    ensures OverLimit(u, sl) && Cause(u, sl).0 != NO_PERIOD
  {
    CauseMeaning(u, sl);
  }

  /** If the ticks of a window found more in the counters of an account's users than a limit for that window
      allows, the last of them finds a cause to restrict the account. */
  lemma HeldMeansCause(cfg: Config, sl: Limits, events: seq<Overcharge.Event>, clockTicks: nat, members: seq<Name>,
                       period: Period, k: Resource, seconds: real)
    requires 0 < clockTicks && Intervals(cfg) && members != [] && period != NO_PERIOD && 1.0 <= seconds
    requires forall m :: m in members ==> m in Overcharge.Run(events, clockTicks).hists
    requires var i := Recent.WindowStart(events, Window(cfg, period));
             && (forall m :: m in members ==> U.TicksWithin(events, i, m, clockTicks, seconds))
             && Excessive(LimitOf(sl, period), k, Window(cfg, period), |members|, clockTicks, seconds,
                          HeldBy(events, i, members, k, clockTicks))
    ensures var u := UsageOf(cfg, Overcharge.Run(events, clockTicks).hists, members);
            OverLimit(u, sl) && Cause(u, sl).0 != NO_PERIOD
  {
    var n := Window(cfg, period);
    var i := Recent.WindowStart(events, n);
    var all := Overcharge.Run(events, clockTicks).hists;
    var hists := HistoriesOf(all, members);
    RecordedCoversHeld(events, i, members, k, clockTicks, seconds);
    WindowsRecorded(events, clockTicks, members, n, k);
    PlausibleRun(events, clockTicks);
    ShownOver(cfg, hists, period, LimitOf(sl, period), k, clockTicks, seconds,
              HeldBy(events, i, members, k, clockTicks));
    PartsAreHistories(cfg, all, members);
    OverInPeriod(UsageOf(cfg, all, members), sl, period);
  }

  // ----- From the readings to the limit -----

  /** The readings of the user since the window began all reached its counter, each within a second. */
  ghost predicate InFull(events: seq<Overcharge.Event>, i: nat, u: Name, clockTicks: nat)
    requires 0 < clockTicks
  {
    U.NeverDisturbed(events, u, clockTicks) && U.Prompt(events, i, u)
  }

  lemma HeldIsConsumed(events: seq<Overcharge.Event>, i: nat, u: Name, k: Resource, clockTicks: nat)
    requires 0 < clockTicks && Recent.AtTick(events, i) && InFull(events, i, u, clockTicks)
    requires events != [] && events[|events| - 1].Tick?
    ensures U.HeldSince(events, i, u, k, clockTicks) == Recent.Since(events, i, u, k)
  {
    U.PromptExact(events, i, u, k, clockTicks);
    var prefix := events[..|events| - 1];
    U.EmptyAfterTick(Overcharge.Run(prefix, clockTicks), events[|events| - 1], u, k, clockTicks);
  }

  lemma {:induction false} AllHeldIsConsumed(events: seq<Overcharge.Event>, i: nat, members: seq<Name>, k: Resource,
                                             clockTicks: nat)
    requires 0 < clockTicks && Recent.AtTick(events, i)
    requires forall m :: m in members ==> InFull(events, i, m, clockTicks)
    requires events != [] && events[|events| - 1].Tick?
    ensures HeldBy(events, i, members, k, clockTicks) == Consumed(events, i, members, k)
    decreases |members|
  {
    if members != [] {
      var m := |members| - 1;
      AllHeldIsConsumed(events, i, members[..m], k, clockTicks);
      HeldIsConsumed(events, i, members[m], k, clockTicks);
    }
  }

  /** An account whose threads consumed more in a window than a limit allows is found over limit by the
      tick at its end, provided that their readings came within a second of each other and none of
      them was lost. */
  lemma ConsumedMeansCause(cfg: Config, sl: Limits, events: seq<Overcharge.Event>, clockTicks: nat, members: seq<Name>,
                           period: Period, k: Resource, seconds: real)
    requires 0 < clockTicks && Intervals(cfg) && members != [] && period != NO_PERIOD && 1.0 <= seconds
    requires forall m :: m in members ==> m in Overcharge.Run(events, clockTicks).hists
    requires events != [] && events[|events| - 1].Tick?
    requires var i := Recent.WindowStart(events, Window(cfg, period));
             && (forall m :: m in members ==> U.TicksWithin(events, i, m, clockTicks, seconds))
             && (forall m :: m in members ==> InFull(events, i, m, clockTicks))
             && Excessive(LimitOf(sl, period), k, Window(cfg, period), |members|, clockTicks, seconds,
                          Consumed(events, i, members, k))
    ensures var u := UsageOf(cfg, Overcharge.Run(events, clockTicks).hists, members);
            OverLimit(u, sl) && Cause(u, sl).0 != NO_PERIOD
  {
    var i := Recent.WindowStart(events, Window(cfg, period));
    Recent.WindowStartMeaning(events, Window(cfg, period));
    AllHeldIsConsumed(events, i, members, k, clockTicks);
    HeldMeansCause(cfg, sl, events, clockTicks, members, period, k, seconds);
  }
}
