/** The other side of Overcharge: what the governor charges and samples at least. */
module Undercharge {
  import opened Data
  import opened FifoStats
  import opened TidTable
  import opened Overcharge
  import opened Recent
  import Registry

  // ----- One charge -----

  function AtLeastOne(dt: real): real {
    if dt < 1.0 then 1.0 else dt
  }

  /** The charge for a rise d over a time dt: the greatest whole number of units per second, where less
      than a second counts as one, and nothing when the clock went back or stood still. */
  predicate Rated(c: int, d: int, dt: real) {
    if dt <= 0.0 then c == 0
    else c as real * AtLeastOne(dt) <= d as real < c as real * AtLeastOne(dt) + AtLeastOne(dt)
  }

  lemma FloorBounds(x: real)
    ensures x.Floor as real <= x < x.Floor as real + 1.0
  {
  }

  lemma RateBounds(a: nat, dt: real)
    requires dt > 1.0
    ensures Rate(a, dt) as real * dt <= a as real < Rate(a, dt) as real * dt + dt
  {
    var x := a as real / dt;
    assert x * dt == a as real;
    FloorBounds(x);
    FloorProduct(x.Floor as real, x, dt, a as real);
  }

  lemma FloorProduct(c: real, x: real, dt: real, a: real)
    requires c <= x < c + 1.0 && 0.0 < dt && x * dt == a
    ensures c * dt <= a < c * dt + dt
  {
    ProductAtMost(c, x, dt, c * dt, a);
    ProductBelow(c, x, dt, c * dt, a);
  }

  /** Bounds on factors as bounds on the products p of a and q of b with m. */
  lemma ProductAtMost(a: real, b: real, m: real, p: real, q: real)
    requires a <= b && 0.0 < m && p == a * m && q == b * m
    ensures p <= q
  {
    var y := b - a;
    assert 0.0 <= y * m;
    assert y * m == q - p;
  }

  lemma ProductBelow(a: real, b: real, m: real, p: real, q: real)
    requires b < a + 1.0 && 0.0 < m && p == a * m && q == b * m
    ensures q < p + m
  {
    var y := a + 1.0 - b;
    assert 0.0 < y * m;
    assert y * m == p + m - q;
  }

  lemma ChargeRated(d: Amounts, dt: real, k: Resource)
    requires 0 <= d.cpu && 0 <= d.read && 0 <= d.write
    ensures Rated(Charge(d, dt).At(k), d.At(k), dt)
  {
    if dt > 1.0 {
      RateRated(d.At(k), dt);
    } else if dt > 0.0 {
      WholeBounds(d.At(k));
    }
  }

  lemma RateRated(a: nat, dt: real)
    requires dt > 1.0
    ensures Rated(Rate(a, dt), a, dt)
  {
    RateBounds(a, dt);
  }

  lemma WholeBounds(d: int)
    ensures d as real * 1.0 <= d as real < d as real * 1.0 + 1.0
  {
  }

  /** Within a second the whole rise is charged. */
  lemma PromptCharge(c: int, d: int, dt: real)
    requires Rated(c, d, dt) && 0.0 < dt <= 1.0
    ensures c == d
  {
    assert c as real <= d as real < c as real + 1.0;
  }

  // ----- One sample -----

  lemma CeilBounds(a: nat, tm: real)
    requires tm >= 1.0
    ensures a as real <= Ceil(a as real / tm) as real * tm < a as real + tm
  {
    var x := a as real / tm;
    assert x * tm == a as real;
    assert (-x).Floor as real <= -x < (-x).Floor as real + 1.0;
    CeilProduct(Ceil(x) as real, x, tm, a as real);
  }

  lemma CeilProduct(c: real, x: real, tm: real, a: real)
    requires x <= c < x + 1.0 && 0.0 < tm && x * tm == a
    ensures a <= c * tm < a + tm
  {
    ProductAtMost(x, c, tm, a, c * tm);
    ProductBelow(x, c, tm, a, c * tm);
  }

  lemma CpuExact(a: nat, tm: real, clockTicks: nat)
    requires tm >= 1.0 && 0 < clockTicks
    ensures a as real / tm / clockTicks as real * tm * clockTicks as real == a as real
  {
    var x := a as real / tm;
    Quotient(a as real, tm);
    Quotient(x, clockTicks as real);
    Products(x / clockTicks as real, tm, clockTicks as real, x, a as real);
  }

  lemma Quotient(x: real, m: real)
    requires 0.0 < m
    ensures x / m * m == x
  {
  }

  lemma Products(y: real, tm: real, ticks: real, x: real, a: real)
    requires y * ticks == x && x * tm == a
    ensures y * tm * ticks == a
  {
    Swap(y, tm, ticks);
    assert y * ticks * tm == x * tm;
  }

  lemma Swap(a: real, b: real, c: real)
    ensures a * b * c == a * c * b
  {
  }

  /** The sample is the amounts divided by so many seconds: CPU exactly, in seconds instead of clock ticks,
      reads and writes rounded up. */
  predicate PerSecond(s: Stats, used: Amounts, tm: real, clockTicks: nat) {
    && s.cpu * tm * clockTicks as real == used.cpu as real
    && used.read as real <= s.read as real * tm < used.read as real + tm
    && used.write as real <= s.write as real * tm < used.write as real + tm
  }

  /** A tick's sample is the counter divided by the time since it was reset, which counts as a second if
      it is shorter; nothing when the clock went back or stood still. */
  lemma SampleExact(c: Counter, now: real, clockTicks: nat)
    requires 0 < clockTicks && Sane(c)
    ensures var s, tm := SampleOf(c, now, clockTicks), AtLeastOne(now - c.tm);
            if now <= c.tm then s == ZERO_STATS else PerSecond(s, c.used, tm, clockTicks)
  {
    if now > c.tm {
      var tm := AtLeastOne(now - c.tm);
      SampleIs(c, now, clockTicks, tm);
      QuotientsPerSecond(SampleOf(c, now, clockTicks), c.used, tm, clockTicks);
    }
  }

  lemma SampleIs(c: Counter, now: real, clockTicks: nat, tm: real)
    requires 0 < clockTicks && Sane(c) && c.tm < now && tm == AtLeastOne(now - c.tm)
    ensures var s := SampleOf(c, now, clockTicks);
            && s.cpu == c.used.cpu as real / tm / clockTicks as real
            && s.read == Ceil(c.used.read as real / tm) && s.write == Ceil(c.used.write as real / tm)
  {
  }

  lemma QuotientsPerSecond(s: Stats, used: Amounts, tm: real, clockTicks: nat)
    requires 0 < clockTicks && 1.0 <= tm && 0 <= used.cpu && 0 <= used.read && 0 <= used.write
    requires s.cpu == used.cpu as real / tm / clockTicks as real
    requires s.read == Ceil(used.read as real / tm) && s.write == Ceil(used.write as real / tm)
    ensures PerSecond(s, used, tm, clockTicks)
  {
    CpuExact(used.cpu, tm, clockTicks);
    CeilBounds(used.read, tm);
    CeilBounds(used.write, tm);
  }

  // ----- What a reading demands, from the events alone -----

  /** The rise that an event brings for a session of the user, and the time since the reading before. */
  function RiseOf(l: Ledger, e: Event, u: Name, k: Resource): Option<(int, real)>
    requires l.Indexed()
  {
    match e
    case End(tid, used, clock) =>
      if tid in l.current && l.sessions[l.current[tid]].username == u then
        var s := l.sessions[l.current[tid]];
        Some((Increase(s.Last().At(k), used.At(k)), clock - s.at))
      else None
    case Visit(tid, now, probe, clock) =>
      if probe.Seen? && l.Due(tid, now) && l.sessions[l.current[tid]].username == u then
        var s := l.sessions[l.current[tid]];
        Some((Increase(s.Last().At(k), probe.used.At(k)), clock - s.at))
      else None
    case _ => None
  }

  lemma {:induction false} ConsumptionWith(sessions: seq<Session>, i: nat, s: Session, u: Name, k: Resource)
    requires i < |sessions| && s.username == sessions[i].username
    ensures Consumption(sessions[i := s], u, k)
            == Consumption(sessions, u, k) + if s.username == u then s.Consumed(k) - sessions[i].Consumed(k) else 0
    decreases |sessions|
  {
    var n := |sessions| - 1;
    if i < n {
      assert sessions[i := s][..n] == sessions[..n][i := s];
      ConsumptionWith(sessions[..n], i, s, u, k);
    } else {
      assert sessions[i := s][..n] == sessions[..n];
    }
  }

  /** An event adds its rise to the user's consumption, and nothing else does. */
  lemma ConsumptionStep(l: Ledger, e: Event, u: Name, k: Resource)
    requires l.Indexed()
    ensures var rise := RiseOf(l, e, u, k);
            Consumption(Entered(l, e).sessions, u, k)
            == Consumption(l.sessions, u, k) + if rise.Some? then rise.value.0 else 0
  {
    if e.Begin? {
      var s := Session(e.item.username, e.item.used, [], e.item.at);
      assert (l.sessions + [s])[..|l.sessions|] == l.sessions;
    } else if e.End? && e.tid in l.current {
      ConsumptionSeen(l, e.tid, e.used, e.clock, u, k);
    } else if e.Visit? && e.probe.Seen? && l.Due(e.tid, e.now) {
      ConsumptionSeen(l, e.tid, e.probe.used, e.now, u, k);
    }
  }

  lemma ConsumptionSeen(l: Ledger, tid: int, used: Amounts, now: real, u: Name, k: Resource)
    requires l.Indexed() && tid in l.current
    ensures var s := l.sessions[l.current[tid]];
            Consumption(l.Seen(tid, used, now).sessions, u, k)
            == Consumption(l.sessions, u, k) + if s.username == u then Increase(s.Last().At(k), used.At(k)) else 0
  {
    var i := l.current[tid];
    var s := l.sessions[i];
    SeenConsumes(s, used, now, k);
    ConsumptionWith(l.sessions, i, s.Seen(used, now), u, k);
  }

  // ----- Runs in which no thread is lost -----

  /** No thread of the user leaves the table but by its end, and none begins again with lower readings
      than it was charged up to. */
  predicate Undisturbed(t: Tables, e: Event, u: Name) {
    match e
    case Begin(tid, item) => item.username == u && tid in t.threads ==> AtMost(t.threads[tid].used, item.used)
    case Sweep => forall tid :: tid in t.threads && t.threads[tid].username == u ==> tid !in t.bad
    case Disconnect(fd) => forall tid :: tid in t.threads && t.threads[tid].username == u ==> t.threads[tid].fd != fd
    case _ => true
  }

  /** Every running session of the user has its thread in the table, charged up to its last reading. */
  ghost predicate Tracked(t: Tables, l: Ledger, u: Name)
    requires l.Indexed()
  {
    forall tid :: tid in l.current && l.sessions[l.current[tid]].username == u ==>
      tid in t.threads && t.threads[tid].used == l.sessions[l.current[tid]].Last()
  }

  lemma LatestOf(a: Amounts, b: Amounts)
    ensures AtMost(a, Latest(a, b)) && AtMost(b, Latest(a, b))
    ensures forall k: Resource :: Latest(a, b).At(k) == a.At(k) || Latest(a, b).At(k) == b.At(k)
    ensures AtMost(a, b) ==> Latest(a, b) == b
  {
  }

  lemma TrackedStep(g: Governor, l: Ledger, charges: seq<Amounts>, e: Event, u: Name, clockTicks: nat)
    requires 0 < clockTicks && Book(g.tables, l, charges) && Tracked(g.tables, l, u) && Undisturbed(g.tables, e, u)
    ensures Tracked(Step(g, e, clockTicks).tables, Entered(l, e), u)
  {
    var t, t', l' := g.tables, Step(g, e, clockTicks).tables, Entered(l, e);
    forall x | x in l'.current && l'.sessions[l'.current[x]].username == u
      ensures x in t'.threads && t'.threads[x].used == l'.sessions[l'.current[x]].Last()
    {
      TrackedThread(g, l, charges, e, u, clockTicks, x);
    }
  }

  lemma TrackedThread(g: Governor, l: Ledger, charges: seq<Amounts>, e: Event, u: Name, clockTicks: nat, x: int)
    requires 0 < clockTicks && Book(g.tables, l, charges) && Tracked(g.tables, l, u) && Undisturbed(g.tables, e, u)
    requires x in Entered(l, e).current && Entered(l, e).sessions[Entered(l, e).current[x]].username == u
    ensures var t', l' := Step(g, e, clockTicks).tables, Entered(l, e);
            x in t'.threads && t'.threads[x].used == l'.sessions[l'.current[x]].Last()
  {
    var t := g.tables;
    if e.Begin? && x == e.tid {
      if x in t.threads {
        LatestOf(t.threads[x].used, e.item.used);
      }
    } else {
      assert x in l.current && l.sessions[l.current[x]].username == u;
      assert x in t.threads && Backed(t, l, x);
      if e.Visit? && e.tid == x {
        if e.probe.Seen? && l.Due(x, e.now) {
          SeenConsumes(l.sessions[l.current[x]], e.probe.used, e.now, Cpu);
        }
      }
    }
  }

  /** An event that brings the user a rise charges it to the user's counter, per second; no other event
      but a tick changes the counter. */
  lemma OwedStep(g: Governor, l: Ledger, charges: seq<Amounts>, e: Event, u: Name, k: Resource, clockTicks: nat)
    returns (c: int)
    requires 0 < clockTicks && !e.Tick? && Book(g.tables, l, charges) && Tracked(g.tables, l, u)
    ensures Owed(Step(g, e, clockTicks).tables.counters, u, k) == Owed(g.tables.counters, u, k) + c
    ensures var rise := RiseOf(l, e, u, k);
            if rise.Some? then Rated(c, rise.value.0, rise.value.1) else c == 0
  {
    c := 0;
    if e.End? && e.tid in g.tables.threads {
      c := OwedCharge(g, l, charges, e.tid, e.used, e.clock, u, k);
    } else if e.Visit? && e.tid in g.tables.threads && e.now - g.tables.threads[e.tid].at > 1.0 && e.probe.Seen? {
      c := OwedCharge(g, l, charges, e.tid, e.probe.used, e.clock, u, k);
    } else if (e.End? || e.Visit?) && e.tid in g.tables.threads {
      assert Backed(g.tables, l, e.tid);
    }
  }

  lemma OwedCharge(g: Governor, l: Ledger, charges: seq<Amounts>, tid: int, used: Amounts, clock: real, u: Name,
                   k: Resource) returns (c: int)
    requires Book(g.tables, l, charges) && Tracked(g.tables, l, u) && tid in g.tables.threads
    ensures tid in l.current && l.sessions[l.current[tid]].at == g.tables.threads[tid].at
    ensures l.sessions[l.current[tid]].username == g.tables.threads[tid].username
    ensures Owed(Charged(g.tables.counters, g.tables.threads[tid], used, clock), u, k)
            == Owed(g.tables.counters, u, k) + c
    ensures var s := l.sessions[l.current[tid]];
            if s.username == u then Rated(c, Increase(s.Last().At(k), used.At(k)), clock - s.at) else c == 0
  {
    assert Backed(g.tables, l, tid);
    var item := g.tables.threads[tid];
    var d := Charge(Delta(item.used, used), clock - item.at);
    ChargeRated(Delta(item.used, used), clock - item.at, k);
    c := if item.username == u then d.At(k) else 0;
  }

  // ----- Whole runs -----

  ghost predicate NeverDisturbed(events: seq<Event>, u: Name, clockTicks: nat)
    requires 0 < clockTicks
  {
    forall j :: 0 <= j < |events| ==> Undisturbed(Run(events[..j], clockTicks).tables, events[j], u)
  }

  lemma UndisturbedPrefix(events: seq<Event>, u: Name, clockTicks: nat)
    requires 0 < clockTicks && events != [] && NeverDisturbed(events, u, clockTicks)
    ensures var n := |events| - 1;
            && NeverDisturbed(events[..n], u, clockTicks)
            && Undisturbed(Run(events[..n], clockTicks).tables, events[n], u)
  {
    var n := |events| - 1;
    forall j | 0 <= j < n ensures Undisturbed(Run(events[..n][..j], clockTicks).tables, events[..n][j], u) {
      assert events[..n][..j] == events[..j];
    }
  }

  lemma {:induction false} TrackedRun(events: seq<Event>, u: Name, clockTicks: nat)
    requires 0 < clockTicks && NeverDisturbed(events, u, clockTicks)
    ensures Tracked(Run(events, clockTicks).tables, LedgerOf(events), u)
    decreases |events|
  {
    if events != [] {
      var prefix, e := events[..|events| - 1], events[|events| - 1];
      UndisturbedPrefix(events, u, clockTicks);
      TrackedRun(prefix, u, clockTicks);
      BooksBalance(prefix, u, Cpu, clockTicks);
      TrackedStep(Run(prefix, clockTicks), LedgerOf(prefix), Charges(prefix, clockTicks), e, u, clockTicks);
    }
  }

  /** What the ticks after the first i events found in the user's counter. */
  function HeldSince(events: seq<Event>, i: nat, u: Name, k: Resource, clockTicks: nat): int
    requires 0 < clockTicks && i <= |events|
  {
    if |events| == i then 0
    else
      var prefix := events[..|events| - 1];
      HeldSince(prefix, i, u, k, clockTicks)
      + if events[|events| - 1].Tick? then Owed(Run(prefix, clockTicks).tables.counters, u, k) else 0
  }

  /** Everything charged to the user after the first i events, if those end with a tick. */
  function ChargedSince(events: seq<Event>, i: nat, u: Name, k: Resource, clockTicks: nat): int
    requires 0 < clockTicks && i <= |events|
  {
    HeldSince(events, i, u, k, clockTicks) + Owed(Run(events, clockTicks).tables.counters, u, k)
  }

  /** A rise as a rate per second, where less than a second counts as one. */
  function Share(rise: Option<(int, real)>): real {
    if rise.None? || rise.value.1 <= 0.0 then 0.0 else rise.value.0 as real / AtLeastOne(rise.value.1)
  }

  /** The rates of all rises of the user's readings after the first i events, and their number. */
  function Demand(events: seq<Event>, i: nat, u: Name, k: Resource): real
    requires i <= |events|
  {
    if |events| == i then 0.0
    else
      var prefix := events[..|events| - 1];
      Demand(prefix, i, u, k) + Share(RiseOf(LedgerOf(prefix), events[|events| - 1], u, k))
  }

  function Readings(events: seq<Event>, i: nat, u: Name, k: Resource): nat
    requires i <= |events|
  {
    if |events| == i then 0
    else
      var prefix := events[..|events| - 1];
      Readings(prefix, i, u, k) + if RiseOf(LedgerOf(prefix), events[|events| - 1], u, k).Some? then 1 else 0
  }

  lemma RatedShare(c: int, rise: Option<(int, real)>)
    requires if rise.Some? then Rated(c, rise.value.0, rise.value.1) else c == 0
    ensures c as real <= Share(rise) <= c as real + if rise.Some? then 1.0 else 0.0
  {
    if rise.Some? && rise.value.1 > 0.0 {
      var m := AtLeastOne(rise.value.1);
      Quotient(rise.value.0 as real, m);
      QuotientBetween(c as real, Share(rise), m, c as real * m, rise.value.0 as real);
    }
  }

  lemma QuotientBetween(c: real, x: real, m: real, p: real, d: real)
    requires 0.0 < m && p == c * m && d == x * m && p <= d < p + m
    ensures c <= x <= c + 1.0
  {
    Cancel(c, x, m, p, d);
    Shift(c, m);
    Cancel(x, c + 1.0, m, d, p + m);
  }

  lemma Shift(c: real, m: real)
    ensures (c + 1.0) * m == c * m + m
  {
  }

  lemma Cancel(a: real, b: real, m: real, p: real, q: real)
    requires 0.0 < m && p == a * m && q == b * m && p <= q
    ensures a <= b
  {
    if b < a {
      Larger(b, a, m, q, p);
    }
  }

  lemma Larger(a: real, b: real, m: real, p: real, q: real)
    requires 0.0 < m && p == a * m && q == b * m && a < b
    ensures p < q
  {
    var y := b - a;
    assert 0.0 < y * m;
    assert y * m == q - p;
  }

  lemma ChargedStep(events: seq<Event>, i: nat, u: Name, k: Resource, clockTicks: nat) returns (c: int)
    requires 0 < clockTicks && i < |events| && NeverDisturbed(events, u, clockTicks)
    ensures var prefix, e := events[..|events| - 1], events[|events| - 1];
            var rise := RiseOf(LedgerOf(prefix), e, u, k);
            && ChargedSince(events, i, u, k, clockTicks) == ChargedSince(prefix, i, u, k, clockTicks) + c
            && if rise.Some? then Rated(c, rise.value.0, rise.value.1) else c == 0
  {
    var prefix, e := events[..|events| - 1], events[|events| - 1];
    UndisturbedPrefix(events, u, clockTicks);
    TrackedRun(prefix, u, clockTicks);
    BooksBalance(prefix, u, k, clockTicks);
    if e.Tick? {
      c := 0;
      EmptyAfterTick(Run(prefix, clockTicks), e, u, k, clockTicks);
    } else {
      c := OwedStep(Run(prefix, clockTicks), LedgerOf(prefix), Charges(prefix, clockTicks), e, u, k, clockTicks);
    }
  }

  lemma EmptyAfterTick(g: Governor, e: Event, u: Name, k: Resource, clockTicks: nat)
    requires 0 < clockTicks && e.Tick?
    ensures Owed(Step(g, e, clockTicks).tables.counters, u, k) == 0
  {
  }

  lemma ChargedStart(events: seq<Event>, u: Name, k: Resource, clockTicks: nat)
    requires 0 < clockTicks && AtTick(events, |events|)
    ensures ChargedSince(events, |events|, u, k, clockTicks) == 0
  {
    SettledAtTick(events, |events|, clockTicks);
    assert events[..|events|] == events;
  }

  /** From any tick on, in every run in which no thread of the user is lost: what is charged to it is the
      sum of the rates of its readings' rises, less than one unit short for each reading. */
  lemma {:induction false} ChargedMeetsDemand(events: seq<Event>, i: nat, u: Name, k: Resource, clockTicks: nat)
    requires 0 < clockTicks && AtTick(events, i) && NeverDisturbed(events, u, clockTicks)
    ensures Demand(events, i, u, k) - Readings(events, i, u, k) as real
        <= ChargedSince(events, i, u, k, clockTicks) as real <= Demand(events, i, u, k)
    decreases |events|
  {
    if |events| == i {
      ChargedStart(events, u, k, clockTicks);
    } else {
      var prefix := events[..|events| - 1];
      UndisturbedPrefix(events, u, clockTicks);
      assert AtTick(prefix, i);
      ChargedMeetsDemand(prefix, i, u, k, clockTicks);
      var c := ChargedStep(events, i, u, k, clockTicks);
      RatedShare(c, RiseOf(LedgerOf(prefix), events[|events| - 1], u, k));
    }
  }

  /** Every reading of the user after the first i events came within a second of the one before it. */
  ghost predicate Prompt(events: seq<Event>, i: nat, u: Name) {
    forall j, k: Resource :: i <= j < |events| && RiseOf(LedgerOf(events[..j]), events[j], u, k).Some? ==>
      0.0 < RiseOf(LedgerOf(events[..j]), events[j], u, k).value.1 <= 1.0
  }

  lemma PromptPrefix(events: seq<Event>, i: nat, u: Name, k: Resource)
    requires i < |events| && Prompt(events, i, u)
    ensures var n := |events| - 1;
            var rise := RiseOf(LedgerOf(events[..n]), events[n], u, k);
            Prompt(events[..n], i, u) && (rise.Some? ==> 0.0 < rise.value.1 <= 1.0)
  {
    var n := |events| - 1;
    forall j, k: Resource | i <= j < n && RiseOf(LedgerOf(events[..n][..j]), events[..n][j], u, k).Some?
      ensures 0.0 < RiseOf(LedgerOf(events[..n][..j]), events[..n][j], u, k).value.1 <= 1.0
    {
      assert events[..n][..j] == events[..j];
    }
  }

  lemma SinceStep(events: seq<Event>, i: nat, u: Name, k: Resource)
    requires i < |events|
    ensures var n := |events| - 1;
            var rise := RiseOf(LedgerOf(events[..n]), events[n], u, k);
            Since(events, i, u, k) == Since(events[..n], i, u, k) + if rise.Some? then rise.value.0 else 0
  {
    var n := |events| - 1;
    assert events[..n][..i] == events[..i];
    ConsumptionStep(LedgerOf(events[..n]), events[n], u, k);
  }

  /** With prompt readings it is charged exactly what it consumed. */
  lemma {:induction false} PromptExact(events: seq<Event>, i: nat, u: Name, k: Resource, clockTicks: nat)
    requires 0 < clockTicks && AtTick(events, i) && NeverDisturbed(events, u, clockTicks) && Prompt(events, i, u)
    ensures ChargedSince(events, i, u, k, clockTicks) == Since(events, i, u, k)
    decreases |events|
  {
    if |events| == i {
      ChargedStart(events, u, k, clockTicks);
      assert events[..i] == events;
    } else {
      var prefix := events[..|events| - 1];
      UndisturbedPrefix(events, u, clockTicks);
      PromptPrefix(events, i, u, k);
      assert AtTick(prefix, i);
      PromptExact(prefix, i, u, k, clockTicks);
      var c := ChargedStep(events, i, u, k, clockTicks);
      SinceStep(events, i, u, k);
      var rise := RiseOf(LedgerOf(prefix), events[|events| - 1], u, k);
      if rise.Some? {
        PromptCharge(c, rise.value.0, rise.value.1);
      }
    }
  }

  // ----- From the counters to the histories -----

  /** Every tick after the first i events comes at most so many seconds after the user's counter was reset. */
  ghost predicate TicksWithin(events: seq<Event>, i: nat, u: Name, clockTicks: nat, seconds: real)
    requires 0 < clockTicks
  {
    forall j :: i <= j < |events| && events[j].Tick? && u in Run(events[..j], clockTicks).tables.counters ==>
      0.0 < events[j].now - Run(events[..j], clockTicks).tables.counters[u].tm <= seconds
  }

  lemma WithinPrefix(events: seq<Event>, i: nat, u: Name, clockTicks: nat, seconds: real)
    requires 0 < clockTicks && i < |events| && TicksWithin(events, i, u, clockTicks, seconds)
    ensures var n := |events| - 1;
            var counters := Run(events[..n], clockTicks).tables.counters;
            && TicksWithin(events[..n], i, u, clockTicks, seconds)
            && (events[n].Tick? && u in counters ==> 0.0 < events[n].now - counters[u].tm <= seconds)
  {
    var n := |events| - 1;
    forall j | i <= j < n && events[..n][j].Tick? && u in Run(events[..n][..j], clockTicks).tables.counters
      ensures 0.0 < events[..n][j].now - Run(events[..n][..j], clockTicks).tables.counters[u].tm <= seconds
    {
      assert events[..n][..j] == events[..j];
    }
  }

  /** A rate covers an amount if it makes it up in so many seconds. */
  predicate Covers(rate: real, amount: int, seconds: real)
    requires 0.0 < seconds
  {
    amount as real / seconds <= rate
  }

  lemma AmountPerSecond(s: Stats, used: Amounts, tm: real, k: Resource, clockTicks: nat, seconds: real)
    requires PerSecond(s, used, tm, clockTicks) && 0 <= used.At(k) && 0.0 < tm <= seconds
    ensures Covers(AmountOf(s, k, clockTicks), used.At(k), seconds)
  {
    Swap(s.cpu, tm, clockTicks as real);
    LongerIsMore(AmountOf(s, k, clockTicks), tm, seconds, used.At(k) as real);
    CoversFrom(AmountOf(s, k, clockTicks), used.At(k), seconds);
  }

  lemma CoversFrom(rate: real, amount: int, seconds: real)
    requires 0.0 < seconds && amount as real <= rate * seconds
    ensures Covers(rate, amount, seconds)
  {
    Quotient(amount as real, seconds);
    Cancel(amount as real / seconds, rate, seconds, amount as real, rate * seconds);
  }

  lemma CoversMeans(rate: real, amount: int, seconds: real)
    requires 0.0 < seconds && Covers(rate, amount, seconds)
    ensures amount as real <= rate * seconds
  {
    Quotient(amount as real, seconds);
    ProductAtMost(amount as real / seconds, rate, seconds, amount as real, rate * seconds);
  }

  lemma LongerIsMore(amount: real, tm: real, seconds: real, held: real)
    requires 0.0 <= held <= amount * tm && 0.0 < tm <= seconds
    ensures held <= amount * seconds
  {
    Cancel(0.0, amount, tm, 0.0, amount * tm);
    Stretch(amount, tm, seconds);
  }

  lemma Stretch(amount: real, tm: real, seconds: real)
    requires 0.0 <= amount && tm <= seconds
    ensures amount * tm <= amount * seconds
  {
    var z := seconds - tm;
    assert 0.0 <= amount * z;
    assert amount * z == amount * seconds - amount * tm;
  }

  /** What the ticks after the first i events recorded for the user. */
  function RecordedSince(events: seq<Event>, i: nat, u: Name, k: Resource, clockTicks: nat): real
    requires 0 < clockTicks && i <= |events|
  {
    Pushed(Run(events, clockTicks).hists, u, k, clockTicks)
    - Pushed(Run(events[..i], clockTicks).hists, u, k, clockTicks)
  }

  lemma RecordedNext(events: seq<Event>, i: nat, u: Name, k: Resource, clockTicks: nat, more: real)
    requires 0 < clockTicks && i < |events|
    requires var n := |events| - 1;
             var g := Run(events[..n], clockTicks);
             Pushed(Step(g, events[n], clockTicks).hists, u, k, clockTicks) == Pushed(g.hists, u, k, clockTicks) + more
    ensures RecordedSince(events, i, u, k, clockTicks)
            == RecordedSince(events[..|events| - 1], i, u, k, clockTicks) + more
  {
    assert events[..|events| - 1][..i] == events[..i];
  }

  lemma RecordedStart(events: seq<Event>, u: Name, k: Resource, clockTicks: nat)
    requires 0 < clockTicks
    ensures RecordedSince(events, |events|, u, k, clockTicks) == 0.0
  {
    assert events[..|events|] == events;
  }

  /** What the ticks record for a user makes up what they found in its counter, in as many seconds as the
      ticks are apart. */
  lemma {:induction false} RecordedCovers(events: seq<Event>, i: nat, u: Name, k: Resource, clockTicks: nat,
                                          seconds: real)
    requires 0 < clockTicks && i <= |events| && 1.0 <= seconds && TicksWithin(events, i, u, clockTicks, seconds)
    ensures Covers(RecordedSince(events, i, u, k, clockTicks), HeldSince(events, i, u, k, clockTicks), seconds)
    decreases |events|
  {
    if |events| == i {
      RecordedStart(events, u, k, clockTicks);
      Nothing(seconds);
    } else {
      var n := |events| - 1;
      WithinPrefix(events, i, u, clockTicks, seconds);
      RecordedCovers(events[..n], i, u, k, clockTicks, seconds);
      CoversNext(events, i, u, k, clockTicks, seconds);
    }
  }

  lemma SaneRun(events: seq<Event>, clockTicks: nat)
    requires 0 < clockTicks
    ensures SaneCounters(Run(events, clockTicks).tables.counters)
  {
    BooksBalance(events, "", Cpu, clockTicks);
  }

  lemma CoversNext(events: seq<Event>, i: nat, u: Name, k: Resource, clockTicks: nat, seconds: real)
    requires 0 < clockTicks && i < |events| && 1.0 <= seconds
    requires var n := |events| - 1;
             var counters := Run(events[..n], clockTicks).tables.counters;
             && (events[n].Tick? && u in counters ==> 0.0 < events[n].now - counters[u].tm <= seconds)
             && Covers(RecordedSince(events[..n], i, u, k, clockTicks), HeldSince(events[..n], i, u, k, clockTicks),
                       seconds)
    ensures Covers(RecordedSince(events, i, u, k, clockTicks), HeldSince(events, i, u, k, clockTicks), seconds)
  {
    var n := |events| - 1;
    SaneRun(events[..n], clockTicks);
    var more, held := RecordedStep(Run(events[..n], clockTicks), events[n], u, k, clockTicks, seconds);
    RecordedNext(events, i, u, k, clockTicks, more);
    var h, r := HeldSince(events[..n], i, u, k, clockTicks), RecordedSince(events[..n], i, u, k, clockTicks);
    AddUp(h, held, r, more, seconds);
    assert HeldSince(events, i, u, k, clockTicks) == h + held;
    SameCovers(RecordedSince(events, i, u, k, clockTicks), r + more, h + held, seconds);
  }

  lemma SameCovers(rate: real, other: real, amount: int, seconds: real)
    requires 0.0 < seconds && rate == other && Covers(other, amount, seconds)
    ensures Covers(rate, amount, seconds)
  {
  }

  lemma Nothing(seconds: real)
    requires 0.0 < seconds
    ensures Covers(0.0, 0, seconds)
  {
  }

  lemma AddUp(h: int, held: int, r: real, more: real, seconds: real)
    requires 0.0 < seconds && Covers(r, h, seconds) && Covers(more, held, seconds)
    ensures Covers(r + more, h + held, seconds)
  {
    assert (h + held) as real / seconds == h as real / seconds + held as real / seconds;
  }

  /** A tick pushes a sample for a user with a counter: what the counter held, per second. */
  lemma TickRecords(g: Governor, e: Event, u: Name, k: Resource, clockTicks: nat) returns (s: Stats)
    requires 0 < clockTicks && e.Tick? && u in g.tables.counters && g.tables.counters[u].tm < e.now
    requires Sane(g.tables.counters[u])
    ensures PerSecond(s, g.tables.counters[u].used, AtLeastOne(e.now - g.tables.counters[u].tm), clockTicks)
    ensures Pushed(Step(g, e, clockTicks).hists, u, k, clockTicks)
            == Pushed(g.hists, u, k, clockTicks) + AmountOf(s, k, clockTicks)
  {
    var samples := Samples(g.tables.counters, e.now, clockTicks);
    s := samples[u];
    PushedMore(g.hists, samples, u, k, clockTicks);
    SampleExact(g.tables.counters[u], e.now, clockTicks);
  }

  lemma OthersRecord(g: Governor, e: Event, u: Name, k: Resource, clockTicks: nat)
    requires 0 < clockTicks && (e.Tick? ==> u !in g.tables.counters)
    ensures Pushed(Step(g, e, clockTicks).hists, u, k, clockTicks) == Pushed(g.hists, u, k, clockTicks)
  {
    if e.Tick? {
      PushedMore(g.hists, Samples(g.tables.counters, e.now, clockTicks), u, k, clockTicks);
    } else if e.Know? {
      assert HistoryOf(Registry.WithHistory(g.hists, e.username), u) == HistoryOf(g.hists, u);
    }
  }

  lemma RecordedStep(g: Governor, e: Event, u: Name, k: Resource, clockTicks: nat, seconds: real)
    returns (more: real, held: int)
    requires 0 < clockTicks && 1.0 <= seconds && SaneCounters(g.tables.counters)
    requires e.Tick? && u in g.tables.counters ==> 0.0 < e.now - g.tables.counters[u].tm <= seconds
    ensures Pushed(Step(g, e, clockTicks).hists, u, k, clockTicks) == Pushed(g.hists, u, k, clockTicks) + more
    ensures held == if e.Tick? then Owed(g.tables.counters, u, k) else 0
    ensures Covers(more, held, seconds)
  {
    more, held := 0.0, 0;
    if e.Tick? && u in g.tables.counters {
      var s := TickRecords(g, e, u, k, clockTicks);
      held := g.tables.counters[u].used.At(k);
      more := AmountOf(s, k, clockTicks);
      var tm := AtLeastOne(e.now - g.tables.counters[u].tm);
      AmountPerSecond(s, g.tables.counters[u].used, tm, k, clockTicks, seconds);
    } else {
      OthersRecord(g, e, u, k, clockTicks);
      Nothing(seconds);
    }
  }

  // ----- When a counter was reset -----

  /** A tick restarts every counter at the reading of the clock taken for it. */
  lemma TimeAfterTick(events: seq<Event>, now: real, clocks: map<Name, real>, u: Name, clockTicks: nat)
    requires 0 < clockTicks && u in Run(events, clockTicks).tables.counters
    ensures var counters := Run(events + [Tick(now, clocks)], clockTicks).tables.counters;
            u in counters && counters[u].tm == if u in clocks then clocks[u] else now
  {
    assert (events + [Tick(now, clocks)])[..|events|] == events;
  }

  /** No other event restarts a counter; a new one starts at the last reading of the thread charged. */
  lemma TimeBetweenTicks(g: Governor, e: Event, u: Name, clockTicks: nat)
    requires 0 < clockTicks && !e.Tick? && u in Step(g, e, clockTicks).tables.counters
    ensures var tm := Step(g, e, clockTicks).tables.counters[u].tm;
            if u in g.tables.counters then tm == g.tables.counters[u].tm
            else (e.End? || e.Visit?) && e.tid in g.tables.threads && tm == g.tables.threads[e.tid].at
  {
  }

  // ----- Threads that are lost -----

  lemma GoneStep(g: Governor, tid: int, e: Event, clockTicks: nat)
    requires 0 < clockTicks && (e.Begin? ==> e.tid != tid)
    requires tid in g.tables.threads ==> tid in g.tables.bad
    ensures var t := Step(g, e, clockTicks).tables;
            tid in t.threads ==> tid in t.bad && !e.Sweep? && tid in g.tables.threads
  {
  }

  /** A thread that the walk found gone is out of the table after the next sweep, until it begins again. */
  lemma {:induction false} GoneIsForgotten(g: Governor, tid: int, more: seq<Event>, clockTicks: nat)
    requires 0 < clockTicks && tid in g.tables.bad
    requires forall e :: e in more && e.Begin? ==> e.tid != tid
    ensures var t := RunFrom(g, more, clockTicks).tables;
            tid in t.threads ==> tid in t.bad && Sweep !in more
    decreases |more|
  {
    if more != [] {
      var n := |more| - 1;
      assert more[n] in more && more == more[..n] + [more[n]];
      GoneIsForgotten(g, tid, more[..n], clockTicks);
      GoneStep(RunFrom(g, more[..n], clockTicks), tid, more[n], clockTicks);
    }
  }

  /** Only a walk notes a thread as gone: one of the table that was not read for more than a second. */
  lemma FoundGone(g: Governor, e: Event, tid: int, clockTicks: nat)
    requires 0 < clockTicks && !e.Sweep?
    ensures tid in Step(g, e, clockTicks).tables.bad
            <==> tid in g.tables.bad
                 || (&& e.Visit? && e.tid == tid && e.probe.Gone?
                     && tid in g.tables.threads && e.now - g.tables.threads[tid].at > 1.0)
  {
    if e.Visit? {
      assert (g.tables.bad + [e.tid])[|g.tables.bad|] == e.tid;
    }
  }

  /** A thread keeps its connection and its user as long as it does not begin again. */
  predicate OnConnection(t: Tables, tid: int, item: TidData) {
    tid in t.threads ==> t.threads[tid].fd == item.fd && t.threads[tid].username == item.username
  }

  lemma ConnectionStep(g: Governor, tid: int, item: TidData, e: Event, clockTicks: nat)
    requires 0 < clockTicks && (e.Begin? ==> e.tid != tid) && OnConnection(g.tables, tid, item)
    ensures OnConnection(Step(g, e, clockTicks).tables, tid, item)
  {
  }

  lemma {:induction false} StaysOnConnection(g: Governor, tid: int, item: TidData, more: seq<Event>, clockTicks: nat)
    requires 0 < clockTicks && OnConnection(g.tables, tid, item)
    requires forall e :: e in more && e.Begin? ==> e.tid != tid
    ensures OnConnection(RunFrom(g, more, clockTicks).tables, tid, item)
    decreases |more|
  {
    if more != [] {
      var n := |more| - 1;
      assert more[n] in more && more == more[..n] + [more[n]];
      StaysOnConnection(g, tid, item, more[..n], clockTicks);
      ConnectionStep(RunFrom(g, more[..n], clockTicks), tid, item, more[n], clockTicks);
    }
  }

  /** The loss of a connection takes with it every thread that last began on it. */
  lemma ConnectionTakesThreads(g: Governor, tid: int, item: TidData, more: seq<Event>, clockTicks: nat)
    requires 0 < clockTicks && forall e :: e in more && e.Begin? ==> e.tid != tid
    ensures var after := RunFrom(Step(g, Begin(tid, item), clockTicks), more, clockTicks);
            tid !in Step(after, Disconnect(item.fd), clockTicks).tables.threads
  {
    StaysOnConnection(Step(g, Begin(tid, item), clockTicks), tid, item, more, clockTicks);
  }
}
