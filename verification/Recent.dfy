/** What threads consumed since a given tick, and what a user's history shows of the ticks since. */
module Recent {
  import opened Data
  import opened FifoStats
  import opened UserStats
  import opened TidTable
  import opened Overcharge
  import Registry

  function Ticks(events: seq<Event>): nat {
    if events == [] then 0
    else Ticks(events[..|events| - 1]) + if events[|events| - 1].Tick? then 1 else 0
  }

  /** Where the newest n ticks of a run begin: right after the tick before them, or with the run. */
  function WindowStart(events: seq<Event>, n: nat): (i: nat)
    ensures i <= |events|
  {
    if events == [] then 0
    else
      var prefix, e := events[..|events| - 1], events[|events| - 1];
      if !e.Tick? then WindowStart(prefix, n)
      else if n == 0 then |events|
      else WindowStart(prefix, n - 1)
  }

  /** What a user's threads consumed after the first i events of a run: the rises of the readings taken
      since, the first of them measured from the reading taken last before. */
  function Since(events: seq<Event>, i: nat, u: Name, k: Resource): int
    requires i <= |events|
  {
    Consumption(LedgerOf(events).sessions, u, k) - Consumption(LedgerOf(events[..i]).sessions, u, k)
  }

  ghost predicate AtTick(events: seq<Event>, i: nat) {
    i <= |events| && (i == 0 || events[i - 1].Tick?)
  }

  lemma {:induction false} WindowStartMeaning(events: seq<Event>, n: nat)
    ensures var i := WindowStart(events, n);
            AtTick(events, i) && Ticks(events[i..]) <= n && (0 < i ==> Ticks(events[i..]) == n)
    decreases |events|
  {
    if events != [] {
      var prefix, e := events[..|events| - 1], events[|events| - 1];
      var i := WindowStart(events, n);
      if e.Tick? && n == 0 {
        assert events[i..] == [];
      } else {
        WindowStartMeaning(prefix, if e.Tick? then n - 1 else n);
        assert events[i..] == prefix[i..] + [e];
        assert (prefix[i..] + [e])[..|prefix[i..]|] == prefix[i..];
      }
    } else {
      assert events[0..] == [];
    }
  }

  // ----- A run as a first part and the rest -----

  lemma {:induction false} RunSplit(events: seq<Event>, i: nat, clockTicks: nat)
    requires 0 < clockTicks && i <= |events|
    ensures Run(events, clockTicks) == RunFrom(Run(events[..i], clockTicks), events[i..], clockTicks)
    decreases |events|
  {
    if i == |events| {
      assert events[..i] == events && events[i..] == [];
    } else {
      RunSplit(events[..|events| - 1], i, clockTicks);
      LastOfRest(events, i);
    }
  }

  lemma {:induction false} LedgerSplit(events: seq<Event>, i: nat)
    requires i <= |events|
    ensures LedgerOf(events) == LedgerFrom(LedgerOf(events[..i]), events[i..])
    decreases |events|
  {
    if i == |events| {
      assert events[..i] == events && events[i..] == [];
    } else {
      LedgerSplit(events[..|events| - 1], i);
      LastOfRest(events, i);
    }
  }

  lemma LastOfRest(events: seq<Event>, i: nat)
    requires i < |events|
    ensures var prefix, rest := events[..|events| - 1], events[i..];
            && prefix[..i] == events[..i] && prefix[i..] == rest[..|rest| - 1]
            && rest[|rest| - 1] == events[|events| - 1]
  {
  }

  // ----- The sessions from a point on -----

  /** Every session as if it began with its last reading. */
  function Reopened(l: Ledger): (r: Ledger)
    requires l.Indexed()
    ensures r.Indexed()
  {
    Ledger(seq(|l.sessions|, i requires 0 <= i < |l.sessions| =>
                 Session(l.sessions[i].username, l.sessions[i].Last(), [], l.sessions[i].at)),
           l.current)
  }

  /** The one session consumed what the base had consumed and what the other consumed since. */
  predicate Splits(base: int, s: Session, since: Session, k: Resource) {
    && s.username == since.username && s.at == since.at && s.Last() == since.Last()
    && s.Consumed(k) == base + since.Consumed(k)
  }

  function BaseOf(base: seq<Session>, i: nat, k: Resource): int {
    if i < |base| then base[i].Consumed(k) else 0
  }

  ghost predicate Continues(base: seq<Session>, l: Ledger, since: Ledger, k: Resource) {
    && l.Indexed() && since.Indexed()
    && |base| <= |l.sessions| == |since.sessions| && l.current == since.current
    && (forall i :: 0 <= i < |l.sessions| ==> Splits(BaseOf(base, i, k), l.sessions[i], since.sessions[i], k))
    && (forall i :: 0 <= i < |base| ==> l.sessions[i].username == base[i].username)
  }

  lemma SplitsSeen(base: int, s: Session, since: Session, used: Amounts, now: real, k: Resource)
    requires Splits(base, s, since, k)
    ensures Splits(base, s.Seen(used, now), since.Seen(used, now), k)
  {
    SeenConsumes(s, used, now, k);
    SeenConsumes(since, used, now, k);
  }

  lemma SeenContinues(base: seq<Session>, l: Ledger, since: Ledger, tid: int, used: Amounts, now: real, k: Resource)
    requires Continues(base, l, since, k)
    ensures Continues(base, l.Seen(tid, used, now), since.Seen(tid, used, now), k)
  {
    if tid in l.current {
      var j := l.current[tid];
      SplitsSeen(BaseOf(base, j, k), l.sessions[j], since.sessions[j], used, now, k);
    }
  }

  lemma EnteredContinues(base: seq<Session>, l: Ledger, since: Ledger, e: Event, k: Resource)
    requires Continues(base, l, since, k)
    ensures Continues(base, Entered(l, e), Entered(since, e), k)
  {
    match e
    case Begin(tid, item) =>
    case End(tid, used, clock) => SeenContinues(base, l, since, tid, used, clock, k);
    case Visit(tid, now, probe, _) =>
      if tid in l.current {
        assert Splits(BaseOf(base, l.current[tid], k), l.sessions[l.current[tid]], since.sessions[l.current[tid]], k);
      }
      if probe.Seen? {
        SeenContinues(base, l, since, tid, probe.used, now, k);
      }
    case Sweep =>
    case Disconnect(_) =>
    case Tick(_, _) =>
    case Know(_) =>
  }

  lemma {:induction false} LedgerContinues(l: Ledger, events: seq<Event>, k: Resource)
    requires l.Indexed()
    ensures Continues(l.sessions, LedgerFrom(l, events), LedgerFrom(Reopened(l), events), k)
    decreases |events|
  {
    if events != [] {
      var prefix := events[..|events| - 1];
      LedgerContinues(l, prefix, k);
      EnteredContinues(l.sessions, LedgerFrom(l, prefix), LedgerFrom(Reopened(l), prefix), events[|events| - 1], k);
    }
  }

  lemma ConsumptionNext(sessions: seq<Session>, m: nat, u: Name, k: Resource)
    requires m < |sessions|
    ensures Consumption(sessions[..m + 1], u, k)
            == Consumption(sessions[..m], u, k) + if sessions[m].username == u then sessions[m].Consumed(k) else 0
  {
    assert sessions[..m + 1][..m] == sessions[..m];
  }

  lemma {:induction false} ConsumptionSplits(base: seq<Session>, l: Ledger, since: Ledger, n: nat, u: Name, k: Resource)
    requires Continues(base, l, since, k) && n <= |l.sessions|
    ensures Consumption(l.sessions[..n], u, k)
            == Consumption(base[..if n < |base| then n else |base|], u, k) + Consumption(since.sessions[..n], u, k)
  {
    if n > 0 {
      var m := n - 1;
      ConsumptionSplits(base, l, since, m, u, k);
      ConsumptionNext(l.sessions, m, u, k);
      ConsumptionNext(since.sessions, m, u, k);
      if m < |base| {
        ConsumptionNext(base, m, u, k);
      }
      assert Splits(BaseOf(base, m, k), l.sessions[m], since.sessions[m], k);
    }
  }

  /** What was consumed since is the consumption of the reopened sessions. */
  lemma SinceIsReopened(events: seq<Event>, i: nat, u: Name, k: Resource)
    requires i <= |events|
    ensures Since(events, i, u, k)
            == Consumption(LedgerFrom(Reopened(LedgerOf(events[..i])), events[i..]).sessions, u, k)
  {
    var l := LedgerOf(events[..i]);
    LedgerSplit(events, i);
    LedgerContinues(l, events[i..], k);
    var full, since := LedgerOf(events), LedgerFrom(Reopened(l), events[i..]);
    ConsumptionSplits(l.sessions, full, since, |full.sessions|, u, k);
    assert full.sessions[..|full.sessions|] == full.sessions;
    assert since.sessions[..|full.sessions|] == since.sessions;
    assert l.sessions[..|l.sessions|] == l.sessions;
  }

  // ----- The books from a tick on -----

  /** The governor with what it has recorded so far taken away. */
  function Emptied(g: Governor): Governor {
    g.(hists := map u | u in g.hists :: [])
  }

  /** Every counter has just been reset. */
  ghost predicate Settled(t: Tables) {
    forall u :: u in t.counters ==> t.counters[u].used == NOTHING
  }

  lemma SettledAtTick(events: seq<Event>, i: nat, clockTicks: nat)
    requires 0 < clockTicks && AtTick(events, i)
    ensures Settled(Run(events[..i], clockTicks).tables)
  {
    if 0 < i {
      assert events[..i][..i - 1] == events[..i - 1];
    }
  }

  function Nothings(n: nat): seq<Amounts> {
    seq(n, _ => NOTHING)
  }

  lemma {:induction false} NothingCharged(sessions: seq<Session>, u: Name, k: Resource)
    ensures ChargedTo(sessions, Nothings(|sessions|), u, k) == 0
  {
    if sessions != [] {
      var n := |sessions| - 1;
      assert Nothings(|sessions|)[..n] == Nothings(n);
      NothingCharged(sessions[..n], u, k);
    }
  }

  lemma ReopenedBook(t: Tables, l: Ledger, charges: seq<Amounts>)
    requires Book(t, l, charges)
    ensures Book(t, Reopened(l), Nothings(|l.sessions|))
  {
    var r := Reopened(l);
    forall tid | tid in t.threads ensures Backed(t, r, tid) {
      assert Backed(t, l, tid);
    }
  }

  lemma NothingRecorded(hists: map<Name, seq<Stats>>, u: Name, k: Resource, clockTicks: nat)
    requires HistoryOf(hists, u) == []
    ensures Pushed(hists, u, k, clockTicks) == 0.0
  {
    AmountPlus(ZERO_STATS, ZERO_STATS, k, clockTicks);
  }

  lemma EmptiedCredit(g: Governor, l: Ledger, u: Name, k: Resource, clockTicks: nat)
    requires l.Indexed() && Settled(g.tables)
    ensures Credit(Emptied(g), Reopened(l).sessions, Nothings(|l.sessions|), u, k, clockTicks)
  {
    NothingCharged(Reopened(l).sessions, u, k);
    NothingRecorded(Emptied(g).hists, u, k, clockTicks);
    assert Owed(g.tables.counters, u, k) == 0;
  }

  lemma ReopenedBalanced(events: seq<Event>, i: nat, u: Name, k: Resource, clockTicks: nat)
    requires 0 < clockTicks && AtTick(events, i)
    ensures var l := LedgerOf(events[..i]);
            Balanced(Emptied(Run(events[..i], clockTicks)), Reopened(l), Nothings(|l.sessions|), u, k, clockTicks)
  {
    var g, l := Run(events[..i], clockTicks), LedgerOf(events[..i]);
    BooksBalance(events[..i], u, k, clockTicks);
    SettledAtTick(events, i, clockTicks);
    ReopenedBook(g.tables, l, Charges(events[..i], clockTicks));
    EmptiedCredit(g, l, u, k, clockTicks);
  }

  /** From any tick on: the samples recorded since are at most what was consumed since. */
  lemma NeverOverchargesSince(events: seq<Event>, i: nat, u: Name, k: Resource, clockTicks: nat)
    requires 0 < clockTicks && AtTick(events, i)
    ensures var g := RunFrom(Emptied(Run(events[..i], clockTicks)), events[i..], clockTicks);
            && 0 <= Owed(g.tables.counters, u, k)
            && Pushed(g.hists, u, k, clockTicks) + Owed(g.tables.counters, u, k) as real
               <= Since(events, i, u, k) as real
  {
    var g, l := Emptied(Run(events[..i], clockTicks)), Reopened(LedgerOf(events[..i]));
    var charges := Nothings(|l.sessions|);
    ReopenedBalanced(events, i, u, k, clockTicks);
    BalancedFrom(g, l, charges, events[i..], u, k, clockTicks);
    BalancedBound(RunFrom(g, events[i..], clockTicks), LedgerFrom(l, events[i..]),
                  ChargesFrom(g, l, charges, events[i..], clockTicks), u, k, clockTicks);
    SinceIsReopened(events, i, u, k);
  }

  // ----- The histories from a point on -----

  /** Every history is what was recorded since followed by what there was, and the recording since has
      one sample for each tick for all users known from the start, and no more for the others. */
  ghost predicate Appends(before: map<Name, seq<Stats>>, full: map<Name, seq<Stats>>, since: map<Name, seq<Stats>>,
                          ticks: nat)
  {
    && full.Keys == since.Keys && before.Keys <= full.Keys
    && (forall u :: u in full ==> full[u] == since[u] + HistoryOf(before, u))
    && (forall u :: u in before ==> |since[u]| == ticks)
    && (forall u :: u in since ==> |since[u]| <= ticks)
  }

  lemma RecordedAppends(before: map<Name, seq<Stats>>, full: map<Name, seq<Stats>>, since: map<Name, seq<Stats>>,
                        ticks: nat, samples: map<Name, Stats>)
    requires Appends(before, full, since, ticks)
    ensures Appends(before, Registry.Recorded(full, samples), Registry.Recorded(since, samples), ticks + 1)
  {
    var full', since' := Registry.Recorded(full, samples), Registry.Recorded(since, samples);
    forall u | u in full'
      ensures full'[u] == since'[u] + HistoryOf(before, u) && (u in before ==> |since'[u]| == ticks + 1)
      ensures |since'[u]| <= ticks + 1
    {
      assert u in before ==> u in since && u in full;
      RecordedFor(full, samples, u);
      RecordedFor(since, samples, u);
      SequencesAssociate([Registry.SampleOf(samples, u)], HistoryOf(since, u), HistoryOf(before, u));
    }
  }

  lemma RecordedFor(hists: map<Name, seq<Stats>>, samples: map<Name, Stats>, u: Name)
    requires u in Registry.Recorded(hists, samples)
    ensures Registry.Recorded(hists, samples)[u] == [Registry.SampleOf(samples, u)] + HistoryOf(hists, u)
  {
  }

  lemma SequencesAssociate(a: seq<Stats>, b: seq<Stats>, c: seq<Stats>)
    ensures a + (b + c) == a + b + c
  {
  }

  lemma StepAppends(before: map<Name, seq<Stats>>, full: Governor, since: Governor, ticks: nat, e: Event,
                    clockTicks: nat)
    requires 0 < clockTicks && full.tables == since.tables && Appends(before, full.hists, since.hists, ticks)
    ensures Step(full, e, clockTicks).tables == Step(since, e, clockTicks).tables
    ensures Appends(before, Step(full, e, clockTicks).hists, Step(since, e, clockTicks).hists,
                    ticks + if e.Tick? then 1 else 0)
  {
    if e.Tick? {
      RecordedAppends(before, full.hists, since.hists, ticks, Samples(full.tables.counters, e.now, clockTicks));
    }
  }

  lemma {:induction false} RunAppends(g: Governor, events: seq<Event>, clockTicks: nat)
    requires 0 < clockTicks
    ensures var full, since := RunFrom(g, events, clockTicks), RunFrom(Emptied(g), events, clockTicks);
            full.tables == since.tables && Appends(g.hists, full.hists, since.hists, Ticks(events))
    decreases |events|
  {
    if events != [] {
      var prefix := events[..|events| - 1];
      RunAppends(g, prefix, clockTicks);
      StepAppends(g.hists, RunFrom(g, prefix, clockTicks), RunFrom(Emptied(g), prefix, clockTicks), Ticks(prefix),
                  events[|events| - 1], clockTicks);
    }
  }

  lemma NewestOfRecent(since: seq<Stats>, before: seq<Stats>, n: nat)
    requires n <= |since| || before == []
    ensures Newest(since + before, n) == Newest(since, n)
  {
  }

  /** What a history shows of its newest n ticks was recorded since the window began. */
  lemma WindowIsRecent(events: seq<Event>, u: Name, n: nat, clockTicks: nat)
    requires 0 < clockTicks && u in Run(events, clockTicks).hists
    ensures var i := WindowStart(events, n);
            var since := RunFrom(Emptied(Run(events[..i], clockTicks)), events[i..], clockTicks).hists;
            && u in since && since[u] <= Run(events, clockTicks).hists[u]
            && Newest(Run(events, clockTicks).hists[u], n) == Newest(since[u], n)
  {
    var i := WindowStart(events, n);
    var g := Run(events[..i], clockTicks);
    WindowStartMeaning(events, n);
    RunSplit(events, i, clockTicks);
    RunAppends(g, events[i..], clockTicks);
    var since := RunFrom(Emptied(g), events[i..], clockTicks).hists;
    assert i == 0 ==> events[..i] == [];
    NewestOfRecent(since[u], HistoryOf(g.hists, u), n);
  }

  lemma {:induction false} NewestOfAll(hist: seq<Stats>, n: nat)
    requires |hist| <= n
    ensures Sum(Newest(hist, n)) == Sum(hist)
    decreases n
  {
    if hist == [] {
      SumOfZeros(Newest(hist, n));
    } else {
      assert Newest(hist, n)[1..] == Newest(hist[1..], n - 1);
      NewestOfAll(hist[1..], n - 1);
      assert Newest(hist, n)[0] == hist[0];
    }
  }

  /** What the newest n ticks show of a user is exactly what was recorded since they began. */
  lemma WindowIsRecorded(events: seq<Event>, u: Name, n: nat, k: Resource, clockTicks: nat)
    requires 0 < clockTicks && u in Run(events, clockTicks).hists
    ensures var i := WindowStart(events, n);
            AmountOf(Sum(Newest(Run(events, clockTicks).hists[u], n)), k, clockTicks)
            == Pushed(Run(events, clockTicks).hists, u, k, clockTicks)
               - Pushed(Run(events[..i], clockTicks).hists, u, k, clockTicks)
  {
    var i := WindowStart(events, n);
    var g := Run(events[..i], clockTicks);
    WindowStartMeaning(events, n);
    RunSplit(events, i, clockTicks);
    RunAppends(g, events[i..], clockTicks);
    var since := RunFrom(Emptied(g), events[i..], clockTicks).hists[u];
    var before := HistoryOf(g.hists, u);
    assert i == 0 ==> events[..i] == [];
    NewestOfRecent(since, before, n);
    NewestOfAll(since, n);
    SumConcat(since, before);
    AmountPlus(Sum(since), Sum(before), k, clockTicks);
  }
}
