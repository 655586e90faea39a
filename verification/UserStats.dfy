/** A user's sample history and its three averages (src/stats.c). */
module UserStats {
  import opened Data
  import opened FifoStats

  /** COMPARE_MAX_3, called with the long, mid and short interval. */
  function CompareMax3(x: nat, y: nat, z: nat): nat {
    if x > y then (if x > z then x else z) else if y > z then y else z
  }

  /** The windows that push_stats divides by exist. */
  predicate Intervals(cfg: Config) {
    0 < cfg.intervalShort && 0 < cfg.intervalMid && 0 < cfg.intervalLong
  }

  function RingSize(cfg: Config): (size: nat)
    ensures size >= cfg.intervalShort && size >= cfg.intervalMid && size >= cfg.intervalLong
    ensures size in {cfg.intervalShort, cfg.intervalMid, cfg.intervalLong}
  {
    CompareMax3(cfg.intervalLong, cfg.intervalMid, cfg.intervalShort)
  }

  /** The history after a sample was added into the newest slot. */
  function Refreshed(hist: seq<Stats>, x: Stats): seq<Stats> {
    if hist == [] then [x] else [hist[0].Plus(x)] + hist[1..]
  }

  class User {
    const id: Name
    const account: Name
    const stats: Fifo
    var longAverage: Stats
    var midAverage: Stats
    var shortAverage: Stats
    var tick: nat
    ghost var hist: seq<Stats>       // every sample ever pushed, newest first

    ghost function Repr(): set<object> {
      {this, stats, stats.ar}
    }

    /** The ring shows the newest samples, and every average is the mean of exactly the newest
        short, mid or long window: none is clipped by the ring. */
    ghost predicate Valid(cfg: Config)
      reads Repr()
    {
      && Intervals(cfg)
      && stats.Valid() && stats.size == RingSize(cfg)
      && stats.View() == Newest(hist, stats.size)
      && longAverage == Mean(Newest(hist, cfg.intervalLong))
      && midAverage == Mean(Newest(hist, cfg.intervalMid))
      && shortAverage == Mean(Newest(hist, cfg.intervalShort))
    }

    constructor (cfg: Config, id: Name, account: Name)
      requires Intervals(cfg)
      ensures Valid(cfg) && fresh(Repr())
      ensures hist == [] && tick == 0
      ensures this.id == id && this.account == account
    {
      this.id, this.account := id, account;
      stats := new Fifo(RingSize(cfg));
      longAverage, midAverage, shortAverage := ZERO_STATS, ZERO_STATS, ZERO_STATS;
      tick := 0;
      hist := [];
      MeanOfNothing(cfg.intervalLong);
      MeanOfNothing(cfg.intervalMid);
      MeanOfNothing(cfg.intervalShort);
    }

    method Averages(cfg: Config)
      requires Intervals(cfg) && stats.Valid() && stats.size == RingSize(cfg)
      requires stats.View() == Newest(hist, stats.size)
      modifies `longAverage, `midAverage, `shortAverage
      ensures Valid(cfg)
    {
      NewestPrefix(hist, stats.size, cfg.intervalLong);
      NewestPrefix(hist, stats.size, cfg.intervalMid);
      NewestPrefix(hist, stats.size, cfg.intervalShort);
      longAverage := stats.Avg(cfg.intervalLong);
      midAverage := stats.Avg(cfg.intervalMid);
      shortAverage := stats.Avg(cfg.intervalShort);
    }

    method PushStats(cfg: Config, st: Stats)
      requires Valid(cfg)
      modifies Repr()
      ensures Valid(cfg)
      ensures hist == [st] + old(hist)
      ensures tick == old(tick)
    {
      stats.Push(st);
      NewestPush(hist, stats.size, st);
      hist := [st] + hist;
      Averages(cfg);
    }

    method RefreshStats(cfg: Config, st: Stats)
      requires Valid(cfg)
      modifies Repr()
      ensures Valid(cfg)
      ensures hist == Refreshed(old(hist), st)
      ensures tick == old(tick)
    {
      stats.RefreshLast(st);
      NewestRefreshed(hist, stats.size, st);
      hist := Refreshed(hist, st);
      Averages(cfg);
    }

    /** A sample of the current tick is added to the newest one, otherwise it follows it. */
    method Sample(cfg: Config, st: Stats, tickId: nat)
      requires Valid(cfg)
      modifies Repr()
      ensures Valid(cfg) && tick == tickId
      ensures hist == if old(tick) == tickId then Refreshed(old(hist), st) else [st] + old(hist)
    {
      if tick == tickId {
        RefreshStats(cfg, st);
      } else {
        PushStats(cfg, st);
        tick := tickId;
      }
    }
  }

  predicate AllZero(s: seq<Stats>) {
    forall i :: 0 <= i < |s| ==> s[i] == ZERO_STATS
  }

  lemma AllZeroCons(s: seq<Stats>)
    requires s != [] && AllZero(s)
    ensures s[0] == ZERO_STATS && AllZero(s[1..])
  {
  }

  lemma SumOfZeroCons(s: seq<Stats>)
    requires s != [] && s[0] == ZERO_STATS && Sum(s[1..]) == ZERO_STATS
    ensures Sum(s) == ZERO_STATS
  {
  }

  lemma {:induction false} SumOfZeros(s: seq<Stats>)
    requires AllZero(s)
    ensures Sum(s) == ZERO_STATS
  {
    if s != [] {
      AllZeroCons(s);
      SumOfZeros(s[1..]);
      SumOfZeroCons(s);
    }
  }

  lemma MeanOfZeroSum(s: seq<Stats>)
    requires s != [] && Sum(s) == ZERO_STATS
    ensures Mean(s) == ZERO_STATS
  {
    assert TruncDiv(0, |s|) == 0;
    assert 0.0 / |s| as real == 0.0;
  }

  lemma MeanOfNothing(n: nat)
    requires 0 < n
    ensures Mean(Newest([], n)) == ZERO_STATS
  {
    var s := Newest([], n);
    assert AllZero(s);
    SumOfZeros(s);
    MeanOfZeroSum(s);
  }

  /** Adding to the newest slot of the ring is adding to the newest sample of the history. */
  lemma NewestRefreshed(hist: seq<Stats>, size: nat, x: Stats)
    requires 0 < size
    ensures Newest(Refreshed(hist, x), size) == [Newest(hist, size)[0].Plus(x)] + Newest(hist, size)[1..]
  {
  }
}
