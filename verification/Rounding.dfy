/** What the truncation of every user's average costs an account (src/fifo_stats.c, src/calc_stats.c). */
module Rounding {
  import opened Data
  import opened FifoStats
  import opened UserStats
  import opened Restriction
  import opened Accounts

  function Total(sums: seq<nat>): nat {
    if sums == [] then 0 else Total(sums[..|sums| - 1]) + sums[|sums| - 1]
  }

  /** The sum of the truncated means. */
  function Reported(sums: seq<nat>, n: nat): nat
    requires 0 < n
  {
    if sums == [] then 0 else Reported(sums[..|sums| - 1], n) + sums[|sums| - 1] / n
  }

  lemma QuotientRemainder(last: nat, n: nat, p: nat)
    requires 0 < n
    ensures n * (p + last / n) <= n * p + last <= n * (p + last / n) + (n - 1)
  {
    var q := last / n;
    assert last == n * q + last % n;
    assert n * (p + q) == n * p + n * q;
  }

  lemma {:induction false} TotalBounds(sums: seq<nat>, n: nat)
    requires 0 < n
    ensures n * Reported(sums, n) <= Total(sums) <= n * Reported(sums, n) + |sums| * (n - 1)
  {
    if sums != [] {
      var init, last := sums[..|sums| - 1], sums[|sums| - 1];
      TotalBounds(init, n);
      QuotientRemainder(last, n, Reported(init, n));
      Distribute(n, 0, |init|);
    }
  }

  lemma Distribute(n: nat, p: nat, m: nat)
    ensures n * (p + m) == n * p + m * (n - 1) + m
    ensures (m + 1) * (n - 1) == m * (n - 1) + (n - 1)
  {
  }

  lemma MulMonotone(n: nat, a: int, b: int)
    requires a <= b
    ensures n * a <= n * b
  {
  }

  lemma MulCancels(n: nat, a: int, b: int)
    requires n * a < n * b
    ensures a < b
  {
    if b <= a {
      MulMonotone(n, b, a);
    }
  }

  /** A quotient is between the multiples of the divisor. */
  lemma QuotientBetween(total: nat, n: nat, low: int, high: int)
    requires 0 < n
    ensures n * low <= total ==> low <= total / n
    ensures total < n * high ==> total / n < high
  {
    var d := total / n;
    assert n * d <= total < n * (d + 1);
    if n * low <= total {
      MulCancels(n, low, d + 1);
    }
    if total < n * high {
      MulCancels(n, d, high);
    }
  }

  /** The floor of the account's mean exceeds the sum of its users' truncated means by 0 to m - 1. */
  lemma RoundingBound(sums: seq<nat>, n: nat)
    requires 0 < n && sums != []
    ensures 0 <= Total(sums) / n - Reported(sums, n) <= |sums| - 1
  {
    TotalBounds(sums, n);
    Distribute(n, Reported(sums, n), |sums|);
    QuotientBetween(Total(sums), n, Reported(sums, n), Reported(sums, n) + |sums|);
  }

  lemma {:induction false} EqualSums(m: nat, n: nat)
    requires 0 < n
    ensures var sums := seq(m, i => n - 1); Total(sums) == m * (n - 1) && Reported(sums, n) == 0
  {
    if m > 0 {
      var sums: seq<nat> := seq(m, i => n - 1);
      assert sums[..m - 1] == seq(m - 1, i => n - 1);
      EqualSums(m - 1, n);
      assert (n - 1) / n == 0;
      Distribute(n, 0, m - 1);
    }
  }

  lemma HiddenUnits(m: nat, n: nat)
    requires 0 < m <= n
    ensures n * (m - 1) <= m * (n - 1) < n * m
  {
    assert m * (n - 1) == n * m - m && n * (m - 1) == n * m - n;
  }

  /** The bound is met: m users on a window of at least m ticks can hide m - 1 units per tick. */
  lemma RoundingBoundIsMet(m: nat, n: nat)
    requires 0 < m <= n
    ensures var sums := seq(m, i => n - 1); Total(sums) / n - Reported(sums, n) == m - 1
  {
    EqualSums(m, n);
    HiddenUnits(m, n);
    QuotientBetween(m * (n - 1), n, m - 1, m);
  }

  // ----- The averages an account shows -----

  ghost predicate NonNegative(s: seq<Stats>) {
    forall i :: 0 <= i < |s| ==> s[i].NonNegative()
  }

  lemma {:induction false} SumNonNegative(s: seq<Stats>)
    requires NonNegative(s)
    ensures 0 <= Sum(s).read && 0 <= Sum(s).write
  {
    if s != [] {
      SumNonNegative(s[1..]);
    }
  }

  ghost predicate Users(hists: seq<seq<Stats>>) {
    hists != [] && forall i :: 0 <= i < |hists| ==> NonNegative(hists[i])
  }

  lemma WindowNonNegative(hist: seq<Stats>, n: nat)
    requires NonNegative(hist)
    ensures 0 <= Sum(Newest(hist, n)).read && 0 <= Sum(Newest(hist, n)).write
  {
    SumNonNegative(Newest(hist, n));
  }

  /** What each user read in its newest n ticks. */
  function ReadSums(hists: seq<seq<Stats>>, n: nat): seq<int> {
    seq(|hists|, i requires 0 <= i < |hists| => Sum(Newest(hists[i], n)).read)
  }

  function WriteSums(hists: seq<seq<Stats>>, n: nat): seq<int> {
    seq(|hists|, i requires 0 <= i < |hists| => Sum(Newest(hists[i], n)).write)
  }

  function PartsOf(cfg: Config, hists: seq<seq<Stats>>): seq<Usage>
    requires Intervals(cfg)
  {
    seq(|hists|, i requires 0 <= i < |hists| => ContributionOf(cfg, hists[i]))
  }

  function Window(cfg: Config, period: Period): nat {
    match period
    case SHORT_PERIOD => cfg.intervalShort
    case MID_PERIOD => cfg.intervalMid
    case LONG_PERIOD => cfg.intervalLong
    case _ => 1
  }

  lemma PartOfOne(cfg: Config, hist: seq<Stats>, period: Period)
    requires Intervals(cfg) && NonNegative(hist)
    ensures var n := Window(cfg, period);
            && Pick(ContributionOf(cfg, hist), period).read == Sum(Newest(hist, n)).read / n
            && Pick(ContributionOf(cfg, hist), period).write == Sum(Newest(hist, n)).write / n
  {
    WindowNonNegative(hist, Window(cfg, period));
    SumOfOne(Newest(hist, 1));
  }

  lemma SumOfOne(s: seq<Stats>)
    requires |s| == 1
    ensures Sum(s) == s[0]
  {
    assert s == [s[0]] && Sum(s) == s[0].Plus(Sum(s[1..]));
  }

  lemma PickOfSum(parts: seq<Usage>, period: Period)
    requires parts != []
    ensures var k := |parts| - 1;
            && Pick(SumUsages(parts), period).read == Pick(SumUsages(parts[..k]), period).read
                + Pick(parts[k], period).read
            && Pick(SumUsages(parts), period).write == Pick(SumUsages(parts[..k]), period).write
                + Pick(parts[k], period).write
  {
  }

  lemma {:induction false} ShownIsReported(cfg: Config, hists: seq<seq<Stats>>, period: Period,
                                           readSums: seq<nat>, writeSums: seq<nat>)
    requires Intervals(cfg)
    requires forall i :: 0 <= i < |hists| ==> NonNegative(hists[i])
    requires readSums == ReadSums(hists, Window(cfg, period)) && writeSums == WriteSums(hists, Window(cfg, period))
    ensures Pick(SumUsages(PartsOf(cfg, hists)), period).read == Reported(readSums, Window(cfg, period))
    ensures Pick(SumUsages(PartsOf(cfg, hists)), period).write == Reported(writeSums, Window(cfg, period))
  {
    if hists != [] {
      var k, n := |hists| - 1, Window(cfg, period);
      var init := hists[..k];
      assert ReadSums(hists, n)[..k] == ReadSums(init, n);
      assert WriteSums(hists, n)[..k] == WriteSums(init, n);
      ShownIsReported(cfg, init, period, readSums[..k], writeSums[..k]);
      var parts := PartsOf(cfg, hists);
      assert parts[..k] == PartsOf(cfg, init);
      PickOfSum(parts, period);
      PartOfOne(cfg, hists[k], period);
      assert parts[k] == ContributionOf(cfg, hists[k]);
    }
  }

  /** For an account of m users, each reported current, short, mid or long average of reads or writes is at
      most the floor of the account's true mean, and less than m below it. */
  lemma AverageRounding(cfg: Config, hists: seq<seq<Stats>>, period: Period)
      returns (readSums: seq<nat>, writeSums: seq<nat>)
    requires Intervals(cfg) && Users(hists)
    ensures readSums == ReadSums(hists, Window(cfg, period)) && writeSums == WriteSums(hists, Window(cfg, period))
    ensures 0 <= Total(readSums) / Window(cfg, period) - Pick(SumUsages(PartsOf(cfg, hists)), period).read
        <= |hists| - 1
    ensures 0 <= Total(writeSums) / Window(cfg, period) - Pick(SumUsages(PartsOf(cfg, hists)), period).write
        <= |hists| - 1
  {
    var n := Window(cfg, period);
    forall i | 0 <= i < |hists| ensures 0 <= ReadSums(hists, n)[i] && 0 <= WriteSums(hists, n)[i] {
      WindowNonNegative(hists[i], n);
    }
    readSums, writeSums := ReadSums(hists, n), WriteSums(hists, n);
    ShownIsReported(cfg, hists, period, readSums, writeSums);
    RoundingBound(readSums, n);
    RoundingBound(writeSums, n);
  }

  /** A read or write restriction is never caused by rounding: if a reported average exceeds a
      limit, the users really consumed more than the limit allows over the window. In the other
      direction rounding hides less than m per tick. */
  lemma NeverRestrictedByRounding(cfg: Config, hists: seq<seq<Stats>>, period: Period, limit: nat)
    returns (readSums: seq<nat>, writeSums: seq<nat>)
    requires Intervals(cfg) && Users(hists)
    ensures readSums == ReadSums(hists, Window(cfg, period)) && writeSums == WriteSums(hists, Window(cfg, period))
    ensures var shown := Pick(SumUsages(PartsOf(cfg, hists)), period);
            var n := Window(cfg, period);
            && (shown.read > limit ==> Total(readSums) > limit * n)
            && (shown.write > limit ==> Total(writeSums) > limit * n)
            && (Total(readSums) >= (limit + |hists|) * n ==> shown.read > limit)
            && (Total(writeSums) >= (limit + |hists|) * n ==> shown.write > limit)
  {
    readSums, writeSums := AverageRounding(cfg, hists, period);
    QuotientBounds(Total(readSums), limit, |hists|, Window(cfg, period));
    QuotientBounds(Total(writeSums), limit, |hists|, Window(cfg, period));
  }

  lemma QuotientBounds(total: nat, limit: nat, m: nat, n: nat)
    requires 0 < n
    ensures total / n > limit ==> total > limit * n
    ensures total >= (limit + m) * n ==> total / n >= limit + m
  {
    QuotientBetween(total, n, limit + m, limit + 1);
    assert n * (limit + 1) == limit * n + n && n * (limit + m) == (limit + m) * n;
  }
}
