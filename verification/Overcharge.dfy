/** The governor never charges a user more than its threads consumed. */
module Overcharge {
  import opened Data
  import opened TidTable
  import Registry

  datatype Event =
    // a thread enters a user's query
    | Begin(tid: int, item: TidData)
    // it leaves it, with its readings
    | End(tid: int, used: Amounts, clock: real)
    // the monitor's walk reaches a thread
    | Visit(tid: int, now: real, probe: Probe, clock: real)
    // after the walk, the threads found gone are removed
    | Sweep
    // a MySQL connection is lost
    | Disconnect(fd: int)
    // one tick: a sample is made of every counter and pushed, and the counter is reset
    | Tick(now: real, clocks: map<Name, real>)
    // a user of the dbuser map becomes known
    | Know(username: Name)

  /** The tables, and everything ever pushed into each user's history. */
  datatype Governor = Governor(tables: Tables, hists: map<Name, seq<Stats>>)

  function Step(g: Governor, e: Event, clockTicks: nat): Governor
    requires 0 < clockTicks
  {
    match e
    case Begin(tid, item) => g.(tables := Begun(g.tables, tid, item))
    case End(tid, used, clock) => g.(tables := Ended(g.tables, tid, used, clock))
    case Visit(tid, now, probe, clock) => g.(tables := Visited(g.tables, tid, now, probe, clock))
    case Sweep => g.(tables := g.tables.(threads := Dropped(g.tables.threads, g.tables.bad), bad := []))
    case Disconnect(fd) => g.(tables := g.tables.(threads := OfOtherConnections(g.tables.threads, fd)))
    case Tick(now, clocks) =>
      Governor(g.tables.(counters := Reset(g.tables.counters,
          map n | n in g.tables.counters :: if n in clocks then clocks[n] else now)),
               Registry.Recorded(g.hists, Samples(g.tables.counters, now, clockTicks)))
    case Know(n) => g.(hists := Registry.WithHistory(g.hists, n))
  }

  const START := Governor(EMPTY, map[])

  function RunFrom(g: Governor, events: seq<Event>, clockTicks: nat): Governor
    requires 0 < clockTicks
  {
    if events == [] then g
    else Step(RunFrom(g, events[..|events| - 1], clockTicks), events[|events| - 1], clockTicks)
  }

  function Run(events: seq<Event>, clockTicks: nat): Governor
    requires 0 < clockTicks
  {
    RunFrom(START, events, clockTicks)
  }

  /** One walk over the table of threads, as events. */
  function Walk(order: seq<int>, now: real, probes: map<int, Probe>, clocks: map<int, real>): seq<Event>
    requires forall tid :: tid in order ==> tid in probes && tid in clocks
  {
    if order == [] then []
    else
      var last := order[|order| - 1];
      Walk(order[..|order| - 1], now, probes, clocks) + [Visit(last, now, probes[last], clocks[last])]
  }

  /** The monitor's walk is the run of its visits. */
  lemma {:induction false} WalkIsRun(g: Governor, order: seq<int>, now: real, probes: map<int, Probe>,
                                     clocks: map<int, real>, clockTicks: nat)
    requires 0 < clockTicks && forall tid :: tid in order ==> tid in probes && tid in clocks
    ensures RunFrom(g, Walk(order, now, probes, clocks), clockTicks)
            == g.(tables := VisitedAll(g.tables, order, now, probes, clocks))
    decreases |order|
  {
    if order != [] {
      var n := |order| - 1;
      var walk := Walk(order, now, probes, clocks);
      assert walk[..|walk| - 1] == Walk(order[..n], now, probes, clocks);
      WalkIsRun(g, order[..n], now, probes, clocks, clockTicks);
    }
  }

  // ----- What the threads really consumed, from the readings alone -----

  /** One stay of a thread in a user's queries: its reading at the begin, all later ones, and the time of
      the last one. */
  datatype Session = Session(username: Name, first: Amounts, later: seq<Amounts>, at: real) {
    function Last(): Amounts {
      LastOf(first, later)
    }

    function Seen(used: Amounts, now: real): Session {
      this.(later := later + [used], at := now)
    }

    /** What the thread consumed: the sum of all rises of its readings. A cumulative counter that
        falls, as that of a recycled thread id does, has consumed nothing by it. */
    function Consumed(k: Resource): int {
      Rises(first, later, k)
    }

    /** The reading before the i-th later one. */
    function Before(i: nat): Amounts
      requires i <= |later|
    {
      if i == 0 then first else later[i - 1]
    }

    /** No reading is below the one before it. */
    ghost predicate NeverFell(k: Resource) {
      forall i :: 0 <= i < |later| ==> later[i].At(k) >= Before(i).At(k)
    }
  }

  function LastOf(first: Amounts, later: seq<Amounts>): Amounts {
    if later == [] then first else later[|later| - 1]
  }

  function Rises(first: Amounts, later: seq<Amounts>, k: Resource): int {
    if later == [] then 0
    else
      var n := |later| - 1;
      Rises(first, later[..n], k) + Increase(LastOf(first, later[..n]).At(k), later[n].At(k))
  }

  /** Every session so far, and which one a thread is in. */
  datatype Ledger = Ledger(sessions: seq<Session>, current: map<int, nat>) {
    predicate Indexed() {
      forall tid :: tid in current ==> current[tid] < |sessions|
    }

    function Seen(tid: int, used: Amounts, now: real): Ledger
      requires Indexed()
    {
      if tid in current then
        this.(sessions := sessions[current[tid] := sessions[current[tid]].Seen(used, now)])
      else this
    }

    /** The walk reads a thread anew only when its last reading is more than a second old. */
    predicate Due(tid: int, now: real)
      requires Indexed()
    {
      tid in current && now - sessions[current[tid]].at > 1.0
    }
  }

  function Entered(l: Ledger, e: Event): (r: Ledger)
    requires l.Indexed()
    ensures r.Indexed()
  {
    match e
    case Begin(tid, item) =>
      Ledger(l.sessions + [Session(item.username, item.used, [], item.at)], l.current[tid := |l.sessions|])
    case End(tid, used, clock) => var seen := l.Seen(tid, used, clock); seen.(current := seen.current - {tid})
    case Visit(tid, now, probe, _) => if probe.Seen? && l.Due(tid, now) then l.Seen(tid, probe.used, now) else l
    case Sweep => l
    case Disconnect(_) => l
    case Tick(_, _) => l
    case Know(_) => l
  }

  const NO_SESSIONS := Ledger([], map[])

  function LedgerFrom(l: Ledger, events: seq<Event>): (r: Ledger)
    requires l.Indexed()
    ensures r.Indexed()
  {
    if events == [] then l else Entered(LedgerFrom(l, events[..|events| - 1]), events[|events| - 1])
  }

  function LedgerOf(events: seq<Event>): (l: Ledger)
    ensures l.Indexed()
  {
    LedgerFrom(NO_SESSIONS, events)
  }

  /** What a user's threads consumed between begin and end, over all sessions. */
  function Consumption(sessions: seq<Session>, u: Name, k: Resource): int {
    if sessions == [] then 0
    else
      var s := sessions[|sessions| - 1];
      Consumption(sessions[..|sessions| - 1], u, k) + if s.username == u then s.Consumed(k) else 0
  }

  // ----- The book between the two: what was charged for each session -----

  /** What a step charges, and for which thread. */
  function ChargeOf(t: Tables, e: Event): Option<(int, Amounts)> {
    match e
    case End(tid, used, clock) =>
      if tid in t.threads then Some((tid, Charge(Delta(t.threads[tid].used, used), clock - t.threads[tid].at)))
          else None
    case Visit(tid, now, probe, clock) =>
      if tid in t.threads && now - t.threads[tid].at > 1.0 && probe.Seen? then
        Some((tid, Charge(Delta(t.threads[tid].used, probe.used), clock - t.threads[tid].at)))
      else None
    case _ => None
  }

  /** The charges per session after a step. */
  function Booked(charges: seq<Amounts>, l: Ledger, t: Tables, e: Event): seq<Amounts> {
    if e.Begin? then charges + [NOTHING]
    else
      var c := ChargeOf(t, e);
      if c.Some? && c.value.0 in l.current && l.current[c.value.0] < |charges| then
        var i := l.current[c.value.0];
        charges[i := charges[i].Plus(c.value.1)]
      else charges
  }

  function ChargedTo(sessions: seq<Session>, charges: seq<Amounts>, u: Name, k: Resource): int
    requires |charges| == |sessions|
  {
    if sessions == [] then 0
    else
      var i := |sessions| - 1;
      ChargedTo(sessions[..i], charges[..i], u, k) + if sessions[i].username == u then charges[i].At(k) else 0
  }

  // ----- Arithmetic -----

  lemma RealMul(x: real, dt: real)
    requires 0.0 <= x && 1.0 <= dt
    ensures x <= x * dt
  {
    assert 0.0 <= x * (dt - 1.0);
    assert x * (dt - 1.0) == x * dt - x;
  }

  lemma FloorAtMost(a: nat, dt: real)
    requires dt > 1.0
    ensures 0 <= Rate(a, dt) <= a
  {
    var x := a as real / dt;
    assert 0.0 <= x by { assert a as real >= 0.0; }
    assert x * dt == a as real;
    RealMul(x, dt);
    assert x.Floor as real <= x;
    assert -1.0 < x.Floor as real;
  }

  lemma ChargeAtMost(d: Amounts, dt: real, k: Resource)
    requires 0 <= d.cpu && 0 <= d.read && 0 <= d.write
    ensures 0 <= Charge(d, dt).At(k) <= d.At(k)
  {
    if dt > 1.0 {
      FloorAtMost(d.cpu, dt);
      FloorAtMost(d.read, dt);
      FloorAtMost(d.write, dt);
    }
  }

  lemma CeilAtMost(a: nat, tm: real)
    requires tm >= 1.0
    ensures 0 <= Ceil(a as real / tm) <= a
  {
    var x := a as real / tm;
    assert x * tm == a as real;
    assert 0.0 <= x;
    RealMul(x, tm);
    var low: int := -(a as int);
    assert -x >= low as real;
    assert (-x).Floor >= low;
    assert (-x).Floor as real <= -x;
  }

  lemma CpuAtMost(a: nat, tm: real, clockTicks: nat)
    requires tm >= 1.0 && 0 < clockTicks
    ensures a as real / tm / clockTicks as real * clockTicks as real <= a as real
  {
    var x := a as real / tm;
    assert x * tm == a as real && 0.0 <= x;
    RealMul(x, tm);
    assert x / clockTicks as real * clockTicks as real == x;
  }

  /** A statistic in the unit of the readings. */
  function AmountOf(s: Stats, k: Resource, clockTicks: nat): real {
    match k
    case Cpu => s.cpu * clockTicks as real
    case Read => s.read as real
    case Write => s.write as real
  }

  predicate Sane(c: Counter) {
    0 <= c.used.cpu && 0 <= c.used.read && 0 <= c.used.write
  }

  /** A sample shows at most what its counter held: it is divided by at least one second. */
  lemma SampleAtMost(c: Counter, now: real, clockTicks: nat, k: Resource)
    requires 0 < clockTicks && Sane(c)
    ensures AmountOf(SampleOf(c, now, clockTicks), k, clockTicks) <= c.used.At(k) as real
  {
    var dt := now - c.tm;
    if dt > 0.0 {
      var tm := if dt < 1.0 then 1.0 else dt;
      CeilAtMost(c.used.read, tm);
      CeilAtMost(c.used.write, tm);
      CpuAtMost(c.used.cpu, tm, clockTicks);
    }
  }

  // ----- Sessions: charges telescope -----

  /** Session i has been charged at most what it consumed. */
  ghost predicate Within(sessions: seq<Session>, charges: seq<Amounts>, i: nat)
    requires i < |sessions| == |charges|
  {
    forall k: Resource :: 0 <= charges[i].At(k) <= sessions[i].Consumed(k)
  }

  predicate AtMost(a: Amounts, b: Amounts) {
    a.cpu <= b.cpu && a.read <= b.read && a.write <= b.write
  }

  /** A running thread is in a session of its user, was last read when the session says, and its next
      charge will start at or above the session's last reading. */
  predicate Backed(t: Tables, l: Ledger, tid: int)
    requires l.Indexed() && tid in t.threads
  {
    && tid in l.current
    && var s := l.sessions[l.current[tid]];
       s.username == t.threads[tid].username && s.at == t.threads[tid].at && AtMost(s.Last(), t.threads[tid].used)
  }

  ghost predicate Book(t: Tables, l: Ledger, charges: seq<Amounts>) {
    && l.Indexed() && |charges| == |l.sessions|
    && (forall a, b :: a in l.current && b in l.current && a != b ==> l.current[a] != l.current[b])
    && (forall i: nat :: i < |charges| ==> Within(l.sessions, charges, i))
    && (forall tid :: tid in t.threads ==> Backed(t, l, tid))
  }

  lemma SeenConsumes(s: Session, used: Amounts, now: real, k: Resource)
    ensures s.Seen(used, now).Last() == used
    ensures s.Seen(used, now).Consumed(k) == s.Consumed(k) + Increase(s.Last().At(k), used.At(k))
  {
    assert (s.later + [used])[..|s.later|] == s.later;
  }

  /** Charging the increase over the last charged reading keeps a session within its consumption. */
  lemma ChargedSession(s: Session, charged: Amounts, used: Amounts, later: Amounts, now: real, dt: real)
    requires forall k: Resource :: 0 <= charged.At(k) <= s.Consumed(k)
    requires AtMost(s.Last(), used)
    ensures var after := charged.Plus(Charge(Delta(used, later), dt));
            forall k: Resource :: 0 <= after.At(k) <= s.Seen(later, now).Consumed(k)
  {
    forall k: Resource
      ensures 0 <= charged.Plus(Charge(Delta(used, later), dt)).At(k) <= s.Seen(later, now).Consumed(k)
    {
      ChargeAtMost(Delta(used, later), dt, k);
      SeenConsumes(s, later, now, k);
    }
  }

  lemma BookBegin(t: Tables, l: Ledger, charges: seq<Amounts>, tid: int, item: TidData)
    requires Book(t, l, charges)
    ensures Book(Begun(t, tid, item), Entered(l, Begin(tid, item)), charges + [NOTHING])
  {
    var t', l', charges' := Begun(t, tid, item), Entered(l, Begin(tid, item)), charges + [NOTHING];
    forall i: nat | i < |charges'| ensures Within(l'.sessions, charges', i) {
      if i < |charges| {
        assert Within(l.sessions, charges, i);
      }
    }
    forall x | x in t'.threads ensures Backed(t', l', x) {
      if x != tid {
        assert Backed(t, l, x);
      }
    }
  }

  /** A reading of a thread that is not in the table only moves a session on. */
  lemma BookSeen(t: Tables, l: Ledger, charges: seq<Amounts>, tid: int, used: Amounts, now: real)
    requires Book(t, l, charges) && tid !in t.threads
    ensures Book(t, l.Seen(tid, used, now), charges)
  {
    var l' := l.Seen(tid, used, now);
    forall i: nat | i < |charges| ensures Within(l'.sessions, charges, i) {
      assert Within(l.sessions, charges, i);
      forall k: Resource ensures l.sessions[i].Seen(used, now).Consumed(k) >= l.sessions[i].Consumed(k) {
        SeenConsumes(l.sessions[i], used, now, k);
      }
    }
    forall x | x in t.threads ensures Backed(t, l', x) {
      assert Backed(t, l, x);
    }
  }

  /** A thread's charge for a new reading, with the reading taken over into the table. */
  lemma BookCharge(t: Tables, l: Ledger, charges: seq<Amounts>, tid: int, used: Amounts, at: real, dt: real)
    requires Book(t, l, charges) && tid in t.threads
    requires tid in l.current
    ensures var i := l.current[tid];
            var charge := Charge(Delta(t.threads[tid].used, used), dt);
            Book(t.(threads := t.threads[tid := t.threads[tid].(used := used, at := at)]),
                 l.Seen(tid, used, at), charges[i := charges[i].Plus(charge)])
  {
    var i := l.current[tid];
    var charge := Charge(Delta(t.threads[tid].used, used), dt);
    var t' := t.(threads := t.threads[tid := t.threads[tid].(used := used, at := at)]);
    var l', charges' := l.Seen(tid, used, at), charges[i := charges[i].Plus(charge)];
    assert Backed(t, l, tid) && Within(l.sessions, charges, i);
    ChargedSession(l.sessions[i], charges[i], t.threads[tid].used, used, at, dt);
    forall j: nat | j < |charges'| ensures Within(l'.sessions, charges', j) {
      if j != i {
        assert Within(l.sessions, charges, j);
      }
    }
    forall x | x in t'.threads ensures Backed(t', l', x) {
      if x != tid {
        assert Backed(t, l, x);
      }
    }
  }

  /** Fewer threads, other counters, or sessions left, need no more backing. */
  lemma BookFewer(t: Tables, t': Tables, l: Ledger, current: map<int, nat>, charges: seq<Amounts>)
    requires Book(t, l, charges)
    requires t'.threads.Keys <= t.threads.Keys && forall tid :: tid in t'.threads ==> t'.threads[tid] == t.threads[tid]
    requires t'.threads.Keys * l.current.Keys <= current.Keys <= l.current.Keys
    requires forall tid :: tid in current ==> current[tid] == l.current[tid]
    ensures Book(t', Ledger(l.sessions, current), charges)
  {
    var l' := Ledger(l.sessions, current);
    forall i: nat | i < |charges| ensures Within(l'.sessions, charges, i) {
      assert Within(l.sessions, charges, i);
    }
    forall x | x in t'.threads ensures Backed(t', l', x) {
      assert Backed(t, l, x);
    }
  }

  lemma BookVisit(t: Tables, l: Ledger, charges: seq<Amounts>, tid: int, now: real, probe: Probe, clock: real)
    requires Book(t, l, charges)
    ensures var e := Visit(tid, now, probe, clock);
            Book(Visited(t, tid, now, probe, clock), Entered(l, e), Booked(charges, l, t, e))
  {
    var t', e := Visited(t, tid, now, probe, clock), Visit(tid, now, probe, clock);
    if tid in t.threads {
      assert Backed(t, l, tid);
      if now - t.threads[tid].at > 1.0 && probe.Seen? {
        BookCharge(t, l, charges, tid, probe.used, now, clock - t.threads[tid].at);
        var t1 := t.(threads := t.threads[tid := t.threads[tid].(used := probe.used, at := now)]);
        var l1 := l.Seen(tid, probe.used, now);
        BookFewer(t1, t', l1, l1.current, Booked(charges, l, t, e));
      } else {
        BookFewer(t, t', l, l.current, charges);
      }
    } else if probe.Seen? && l.Due(tid, now) {
      BookSeen(t, l, charges, tid, probe.used, now);
    }
  }

  lemma BookStep(g: Governor, l: Ledger, charges: seq<Amounts>, e: Event, clockTicks: nat)
    requires 0 < clockTicks && Book(g.tables, l, charges)
    ensures Book(Step(g, e, clockTicks).tables, Entered(l, e), Booked(charges, l, g.tables, e))
  {
    var t, t' := g.tables, Step(g, e, clockTicks).tables;
    match e
    case Begin(tid, item) => BookBegin(t, l, charges, tid, item);
    case End(tid, used, clock) =>
      var l1 := l.Seen(tid, used, clock);
      if tid in t.threads {
        assert Backed(t, l, tid);
        var t1 := t.(threads := t.threads[tid := t.threads[tid].(used := used, at := clock)]);
        BookCharge(t, l, charges, tid, used, clock, clock - t.threads[tid].at);
        BookFewer(t1, t', l1, l1.current - {tid}, Booked(charges, l, t, e));
      } else {
        BookSeen(t, l, charges, tid, used, clock);
        BookFewer(t, t', l1, l1.current - {tid}, charges);
      }
    case Visit(tid, now, probe, clock) => BookVisit(t, l, charges, tid, now, probe, clock);
    case Sweep => BookFewer(t, t', l, l.current, charges);
    case Disconnect(_) => BookFewer(t, t', l, l.current, charges);
    case Tick(_, _) => BookFewer(t, t', l, l.current, charges);
    case Know(_) => BookFewer(t, t', l, l.current, charges);
  }

  // ----- Counters and histories: nothing more than was charged -----

  lemma {:induction false} ChargedToSame(a: seq<Session>, b: seq<Session>, charges: seq<Amounts>, u: Name, k: Resource)
    requires |a| == |b| == |charges| && forall i :: 0 <= i < |a| ==> a[i].username == b[i].username
    ensures ChargedTo(a, charges, u, k) == ChargedTo(b, charges, u, k)
  {
    if a != [] {
      var n := |a| - 1;
      ChargedToSame(a[..n], b[..n], charges[..n], u, k);
    }
  }

  lemma {:induction false} ChargedToMore(sessions: seq<Session>, charges: seq<Amounts>, i: nat, d: Amounts,
        u: Name, k: Resource)
    requires |sessions| == |charges| && i < |charges|
    ensures ChargedTo(sessions, charges[i := charges[i].Plus(d)], u, k)
            == ChargedTo(sessions, charges, u, k) + if sessions[i].username == u then d.At(k) else 0
  {
    var n := |charges| - 1;
    var more := charges[i := charges[i].Plus(d)];
    if i < n {
      assert more[..n] == charges[..n][i := charges[..n][i].Plus(d)];
      ChargedToMore(sessions[..n], charges[..n], i, d, u, k);
    } else {
      assert more[..n] == charges[..n];
    }
  }

  function HistoryOf(hists: map<Name, seq<Stats>>, u: Name): seq<Stats> {
    if u in hists then hists[u] else []
  }

  /** Everything ever pushed into the user's history, in the unit of the readings. */
  function Pushed(hists: map<Name, seq<Stats>>, u: Name, k: Resource, clockTicks: nat): real {
    AmountOf(Sum(HistoryOf(hists, u)), k, clockTicks)
  }

  /** What the user's counter still holds. */
  function Owed(counters: map<Name, Counter>, u: Name, k: Resource): int {
    if u in counters then counters[u].used.At(k) else 0
  }

  ghost predicate SaneCounters(counters: map<Name, Counter>) {
    forall u :: u in counters ==> Sane(counters[u])
  }

  ghost predicate Credit(g: Governor, sessions: seq<Session>, charges: seq<Amounts>, u: Name, k: Resource,
        clockTicks: nat)
    requires |charges| == |sessions|
  {
    Pushed(g.hists, u, k, clockTicks) + Owed(g.tables.counters, u, k) as real
        <= ChargedTo(sessions, charges, u, k) as real
  }

  lemma PushedMore(hists: map<Name, seq<Stats>>, samples: map<Name, Stats>, u: Name, k: Resource, clockTicks: nat)
    ensures Pushed(Registry.Recorded(hists, samples), u, k, clockTicks)
            == Pushed(hists, u, k, clockTicks) + if u in samples then AmountOf(samples[u], k, clockTicks) else 0.0
  {
    var after := Registry.Recorded(hists, samples);
    if u in after {
      var x := Registry.SampleOf(samples, u);
      assert after[u] == [x] + HistoryOf(hists, u);
      assert after[u][1..] == HistoryOf(hists, u);
      assert Sum(after[u]) == x.Plus(Sum(HistoryOf(hists, u)));
      AmountPlus(x, Sum(HistoryOf(hists, u)), k, clockTicks);
    }
  }

  lemma AmountPlus(a: Stats, b: Stats, k: Resource, clockTicks: nat)
    ensures AmountOf(a.Plus(b), k, clockTicks) == AmountOf(a, k, clockTicks) + AmountOf(b, k, clockTicks)
    ensures AmountOf(ZERO_STATS, k, clockTicks) == 0.0
  {
  }

  /** A tick moves at most what a counter holds into the history, and empties the counter. */
  lemma CreditTick(g: Governor, sessions: seq<Session>, charges: seq<Amounts>, e: Event, u: Name, k: Resource,
        clockTicks: nat)
    requires 0 < clockTicks && e.Tick? && |charges| == |sessions|
    requires SaneCounters(g.tables.counters) && Credit(g, sessions, charges, u, k, clockTicks)
    ensures SaneCounters(Step(g, e, clockTicks).tables.counters)
    ensures Credit(Step(g, e, clockTicks), sessions, charges, u, k, clockTicks)
  {
    var counters := g.tables.counters;
    var samples := Samples(counters, e.now, clockTicks);
    PushedMore(g.hists, samples, u, k, clockTicks);
    if u in counters {
      SampleAtMost(counters[u], e.now, clockTicks, k);
    }
    var after := Step(g, e, clockTicks).tables.counters;
    assert forall n :: n in after ==> after[n].used == NOTHING;
    assert Owed(after, u, k) == 0;
  }

  /** A charge is added to the user's counter and to a session of the same user. */
  lemma CreditCharge(g: Governor, l: Ledger, charges: seq<Amounts>, tid: int, used: Amounts, now: real, clock: real,
                     u: Name, k: Resource, clockTicks: nat)
    requires Book(g.tables, l, charges) && tid in g.tables.threads
    requires SaneCounters(g.tables.counters) && Credit(g, l.sessions, charges, u, k, clockTicks)
    ensures tid in l.current
    ensures var item := g.tables.threads[tid];
            var counters := Charged(g.tables.counters, item, used, clock);
            var i := l.current[tid];
            var booked := charges[i := charges[i].Plus(Charge(Delta(item.used, used), clock - item.at))];
            && SaneCounters(counters)
            && Pushed(g.hists, u, k, clockTicks) + Owed(counters, u, k) as real
               <= ChargedTo(l.Seen(tid, used, now).sessions, booked, u, k) as real
  {
    assert Backed(g.tables, l, tid);
    var item := g.tables.threads[tid];
    var i := l.current[tid];
    var d := Charge(Delta(item.used, used), clock - item.at);
    var counters := Charged(g.tables.counters, item, used, clock);
    ChargeAtMost(Delta(item.used, used), clock - item.at, Cpu);
    ChargeAtMost(Delta(item.used, used), clock - item.at, Read);
    ChargeAtMost(Delta(item.used, used), clock - item.at, Write);
    forall n | n in counters ensures Sane(counters[n]) {
      if n in g.tables.counters {
        assert Sane(g.tables.counters[n]);
      }
    }
    ChargedToMore(l.sessions, charges, i, d, u, k);
    ChargedToSame(l.sessions, l.Seen(tid, used, now).sessions, charges[i := charges[i].Plus(d)], u, k);
    assert Owed(counters, u, k) == Owed(g.tables.counters, u, k) + if item.username == u then d.At(k) else 0;
  }

  /** A step that neither charges nor ticks only changes the sessions' readings. */
  lemma CreditRest(g: Governor, g': Governor, l: Ledger, l': Ledger, charges: seq<Amounts>, u: Name,
        k: Resource, clockTicks: nat)
    requires |charges| == |l.sessions| == |l'.sessions|
    requires forall i :: 0 <= i < |l.sessions| ==> l'.sessions[i].username == l.sessions[i].username
    requires g'.tables.counters == g.tables.counters && HistoryOf(g'.hists, u) == HistoryOf(g.hists, u)
    requires Credit(g, l.sessions, charges, u, k, clockTicks)
    ensures Credit(g', l'.sessions, charges, u, k, clockTicks)
  {
    ChargedToSame(l.sessions, l'.sessions, charges, u, k);
  }

  lemma CreditBegin(g: Governor, l: Ledger, charges: seq<Amounts>, e: Event, u: Name, k: Resource, clockTicks: nat)
    requires 0 < clockTicks && e.Begin? && |charges| == |l.sessions| && l.Indexed()
    requires Credit(g, l.sessions, charges, u, k, clockTicks)
    ensures Credit(Step(g, e, clockTicks), Entered(l, e).sessions, charges + [NOTHING], u, k, clockTicks)
  {
    var n := |charges|;
    assert (charges + [NOTHING])[..n] == charges && Entered(l, e).sessions[..n] == l.sessions;
  }

  /** A step that charges a thread. */
  predicate Charging(t: Tables, e: Event) {
    ChargeOf(t, e).Some?
  }

  /** The step of an event that charges a thread is that charge. */
  lemma CreditCharging(g: Governor, l: Ledger, charges: seq<Amounts>, e: Event, u: Name, k: Resource, clockTicks: nat)
    requires 0 < clockTicks && Book(g.tables, l, charges) && Charging(g.tables, e)
    requires SaneCounters(g.tables.counters) && Credit(g, l.sessions, charges, u, k, clockTicks)
    ensures SaneCounters(Step(g, e, clockTicks).tables.counters)
    ensures var booked := Booked(charges, l, g.tables, e);
            && |booked| == |Entered(l, e).sessions|
            && Credit(Step(g, e, clockTicks), Entered(l, e).sessions, booked, u, k, clockTicks)
  {
    var used := if e.End? then e.used else e.probe.used;
    var item := g.tables.threads[e.tid];
    var now := if e.End? then e.clock else e.now;
    CreditCharge(g, l, charges, e.tid, used, now, e.clock, u, k, clockTicks);
    assert Backed(g.tables, l, e.tid);
    assert Entered(l, e).sessions == l.Seen(e.tid, used, now).sessions;
    assert ChargeOf(g.tables, e) == Some((e.tid, Charge(Delta(item.used, used), e.clock - item.at)));
    assert Step(g, e, clockTicks).tables.counters == Charged(g.tables.counters, item, used, e.clock);
  }

  lemma CreditStep(g: Governor, l: Ledger, charges: seq<Amounts>, e: Event, u: Name, k: Resource, clockTicks: nat)
    requires 0 < clockTicks && Book(g.tables, l, charges)
    requires SaneCounters(g.tables.counters) && Credit(g, l.sessions, charges, u, k, clockTicks)
    ensures SaneCounters(Step(g, e, clockTicks).tables.counters)
    ensures var booked := Booked(charges, l, g.tables, e);
            && |booked| == |Entered(l, e).sessions|
            && Credit(Step(g, e, clockTicks), Entered(l, e).sessions, booked, u, k, clockTicks)
  {
    if e.Begin? {
      CreditBegin(g, l, charges, e, u, k, clockTicks);
    } else if e.Tick? {
      CreditTick(g, l.sessions, charges, e, u, k, clockTicks);
    } else if Charging(g.tables, e) {
      CreditCharging(g, l, charges, e, u, k, clockTicks);
    } else {
      assert Booked(charges, l, g.tables, e) == charges;
      CreditRest(g, Step(g, e, clockTicks), l, Entered(l, e), charges, u, k, clockTicks);
    }
  }

  // ----- Whole runs -----

  function ChargesFrom(g: Governor, l: Ledger, charges: seq<Amounts>, events: seq<Event>, clockTicks: nat): seq<Amounts>
    requires 0 < clockTicks && l.Indexed()
  {
    if events == [] then charges
    else
      var prefix := events[..|events| - 1];
      Booked(ChargesFrom(g, l, charges, prefix, clockTicks), LedgerFrom(l, prefix),
             RunFrom(g, prefix, clockTicks).tables, events[|events| - 1])
  }

  function Charges(events: seq<Event>, clockTicks: nat): seq<Amounts>
    requires 0 < clockTicks
  {
    ChargesFrom(START, NO_SESSIONS, [], events, clockTicks)
  }

  ghost predicate Balanced(g: Governor, l: Ledger, charges: seq<Amounts>, u: Name, k: Resource, clockTicks: nat) {
    && Book(g.tables, l, charges)
    && SaneCounters(g.tables.counters)
    && Credit(g, l.sessions, charges, u, k, clockTicks)
  }

  lemma NothingPushed(u: Name, k: Resource, clockTicks: nat)
    ensures Pushed(map[], u, k, clockTicks) == 0.0
  {
    AmountPlus(ZERO_STATS, ZERO_STATS, k, clockTicks);
    assert Sum(HistoryOf(map[], u)) == ZERO_STATS;
  }

  lemma NothingBooked(u: Name, k: Resource)
    ensures Book(EMPTY, NO_SESSIONS, [])
    ensures Owed(EMPTY.counters, u, k) == 0 && ChargedTo([], [], u, k) == 0
  {
  }

  lemma BalancedStart(u: Name, k: Resource, clockTicks: nat)
    requires 0 < clockTicks
    ensures Balanced(START, NO_SESSIONS, [], u, k, clockTicks)
  {
    NothingPushed(u, k, clockTicks);
    NothingBooked(u, k);
  }

  lemma BalancedStep(g: Governor, l: Ledger, charges: seq<Amounts>, e: Event, u: Name, k: Resource, clockTicks: nat)
    requires 0 < clockTicks && l.Indexed()
    requires Balanced(g, l, charges, u, k, clockTicks)
    ensures Balanced(Step(g, e, clockTicks), Entered(l, e), Booked(charges, l, g.tables, e), u, k, clockTicks)
  {
    BookStep(g, l, charges, e, clockTicks);
    CreditStep(g, l, charges, e, u, k, clockTicks);
  }

  lemma RunsUnfold(g: Governor, l: Ledger, charges: seq<Amounts>, events: seq<Event>, clockTicks: nat)
    requires 0 < clockTicks && l.Indexed() && events != []
    ensures var prefix, e := events[..|events| - 1], events[|events| - 1];
            && RunFrom(g, events, clockTicks) == Step(RunFrom(g, prefix, clockTicks), e, clockTicks)
            && LedgerFrom(l, events) == Entered(LedgerFrom(l, prefix), e)
            && ChargesFrom(g, l, charges, events, clockTicks)
               == Booked(ChargesFrom(g, l, charges, prefix, clockTicks), LedgerFrom(l, prefix),
                         RunFrom(g, prefix, clockTicks).tables, e)
  {
  }

  /** Books that balance once balance after any further events. */
  lemma {:induction false} BalancedFrom(g: Governor, l: Ledger, charges: seq<Amounts>, events: seq<Event>, u: Name,
                                        k: Resource, clockTicks: nat)
    requires 0 < clockTicks && l.Indexed() && Balanced(g, l, charges, u, k, clockTicks)
    ensures Balanced(RunFrom(g, events, clockTicks), LedgerFrom(l, events),
                     ChargesFrom(g, l, charges, events, clockTicks), u, k, clockTicks)
    decreases |events|
  {
    if events != [] {
      var prefix, e := events[..|events| - 1], events[|events| - 1];
      BalancedFrom(g, l, charges, prefix, u, k, clockTicks);
      BalancedStep(RunFrom(g, prefix, clockTicks), LedgerFrom(l, prefix),
                   ChargesFrom(g, l, charges, prefix, clockTicks), e, u, k, clockTicks);
      RunsUnfold(g, l, charges, events, clockTicks);
    }
  }

  lemma BooksBalance(events: seq<Event>, u: Name, k: Resource, clockTicks: nat)
    requires 0 < clockTicks
    ensures Balanced(Run(events, clockTicks), LedgerOf(events), Charges(events, clockTicks), u, k, clockTicks)
  {
    BalancedStart(u, k, clockTicks);
    BalancedFrom(START, NO_SESSIONS, [], events, u, k, clockTicks);
  }

  /** What a balanced book says: the samples and the counter are at most the sessions' consumption. */
  lemma BalancedBound(g: Governor, l: Ledger, charges: seq<Amounts>, u: Name, k: Resource, clockTicks: nat)
    requires Balanced(g, l, charges, u, k, clockTicks)
    ensures 0 <= Owed(g.tables.counters, u, k)
    ensures Pushed(g.hists, u, k, clockTicks) + Owed(g.tables.counters, u, k) as real
        <= Consumption(l.sessions, u, k) as real
  {
    ChargedWithinConsumption(l.sessions, charges, u, k);
    assert u in g.tables.counters ==> Sane(g.tables.counters[u]);
  }

  lemma {:induction false} ChargedWithinConsumption(sessions: seq<Session>, charges: seq<Amounts>, u: Name, k: Resource)
    requires |charges| == |sessions| && forall i: nat :: i < |charges| ==> Within(sessions, charges, i)
    ensures 0 <= ChargedTo(sessions, charges, u, k) <= Consumption(sessions, u, k)
  {
    if sessions != [] {
      var n := |sessions| - 1;
      forall i: nat | i < n ensures Within(sessions[..n], charges[..n], i) {
        assert Within(sessions, charges, i);
      }
      ChargedWithinConsumption(sessions[..n], charges[..n], u, k);
      assert Within(sessions, charges, n);
    }
  }

  /** The governor never overcharges. In every run, whatever the clocks and the readings say: all
      samples ever pushed into a user's history, together with what its counter still holds, add up
      to at most what the user's threads consumed between begin and end. */
  lemma NeverOvercharges(events: seq<Event>, u: Name, k: Resource, clockTicks: nat)
    requires 0 < clockTicks
    ensures var g := Run(events, clockTicks);
            && 0 <= Owed(g.tables.counters, u, k)
            && Pushed(g.hists, u, k, clockTicks) + Owed(g.tables.counters, u, k) as real
               <= Consumption(LedgerOf(events).sessions, u, k) as real
  {
    BooksBalance(events, u, k, clockTicks);
    BalancedBound(Run(events, clockTicks), LedgerOf(events), Charges(events, clockTicks), u, k, clockTicks);
  }

  // ----- Consumption as last reading minus first -----

  function Gains(sessions: seq<Session>, u: Name, k: Resource): int {
    if sessions == [] then 0
    else
      var s := sessions[|sessions| - 1];
      Gains(sessions[..|sessions| - 1], u, k) + if s.username == u then s.Last().At(k) - s.first.At(k) else 0
  }

  lemma NeverFellSplit(s: Session, k: Resource)
    requires s.later != []
    ensures var n := |s.later| - 1;
            var prefix := s.(later := s.later[..n]);
            s.NeverFell(k) <==> prefix.NeverFell(k) && s.later[n].At(k) >= prefix.Last().At(k)
  {
    var n := |s.later| - 1;
    var prefix := s.(later := s.later[..n]);
    assert s.Before(n) == prefix.Last();
    if s.NeverFell(k) {
      forall i | 0 <= i < n ensures prefix.later[i].At(k) >= prefix.Before(i).At(k) {
        assert s.later[i].At(k) >= s.Before(i).At(k);
      }
    } else if prefix.NeverFell(k) {
      var i :| 0 <= i < |s.later| && s.later[i].At(k) < s.Before(i).At(k);
      assert i < n ==> prefix.later[i].At(k) >= prefix.Before(i).At(k);
    }
  }

  /** The rises of a session are its last reading minus its first exactly when no reading fell, and
      more otherwise. */
  lemma {:induction false} RisesAreGainIffNeverFell(s: Session, k: Resource)
    ensures s.Consumed(k) >= s.Last().At(k) - s.first.At(k)
    ensures s.Consumed(k) == s.Last().At(k) - s.first.At(k) <==> s.NeverFell(k)
    decreases |s.later|
  {
    if s.later != [] {
      var n := |s.later| - 1;
      var prefix := s.(later := s.later[..n]);
      RisesAreGainIffNeverFell(prefix, k);
      NeverFellSplit(s, k);
    }
  }

  /** A user's consumption is the sum of last minus first over its sessions exactly when no reading of
      any of them fell. */
  lemma {:induction false} ConsumptionIsGainIffNeverFell(sessions: seq<Session>, u: Name, k: Resource)
    ensures Consumption(sessions, u, k) >= Gains(sessions, u, k)
    ensures Consumption(sessions, u, k) == Gains(sessions, u, k)
            <==> forall i :: 0 <= i < |sessions| && sessions[i].username == u ==> sessions[i].NeverFell(k)
    decreases |sessions|
  {
    if sessions != [] {
      var n := |sessions| - 1;
      var prefix := sessions[..n];
      ConsumptionIsGainIffNeverFell(prefix, u, k);
      RisesAreGainIffNeverFell(sessions[n], k);
      assert forall i :: 0 <= i < n ==> prefix[i] == sessions[i];
    }
  }

  /** With readings that never fall: at most last minus first of the user's sessions. */
  lemma NeverOverchargesGains(events: seq<Event>, u: Name, k: Resource, clockTicks: nat)
    requires 0 < clockTicks
    requires forall s :: s in LedgerOf(events).sessions && s.username == u ==> s.NeverFell(k)
    ensures var g := Run(events, clockTicks);
            Pushed(g.hists, u, k, clockTicks) + Owed(g.tables.counters, u, k) as real
            <= Gains(LedgerOf(events).sessions, u, k) as real
  {
    NeverOvercharges(events, u, k, clockTicks);
    ConsumptionIsGainIffNeverFell(LedgerOf(events).sessions, u, k);
  }
}
