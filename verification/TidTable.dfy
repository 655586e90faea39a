/** The table of running threads and the per-user counters
    (src/tid_table.c, src/governor_server.c, src/calc_stats.c). */
module TidTable {
  import opened Data

  datatype Resource = Cpu | Read | Write

  /** Three amounts: a thread's cumulative readings, or what is charged for them. CPU is in clock ticks. */
  datatype Amounts = Amounts(cpu: int, read: int, write: int) {
    function At(k: Resource): int {
      match k
      case Cpu => cpu
      case Read => read
      case Write => write
    }

    function Plus(a: Amounts): Amounts {
      Amounts(cpu + a.cpu, read + a.read, write + a.write)
    }
  }

  const NOTHING := Amounts(0, 0, 0)

  /** tid_table; at is the time of the readings. */
  datatype TidData = TidData(username: Name, used: Amounts, at: real, pid: int, fd: int)

  /** Stat_counters: what was charged since tm. */
  datatype Counter = Counter(used: Amounts, tm: real)

  /** What reading a thread's counters under /proc gives. */
  datatype Probe = Gone | Seen(used: Amounts)

  // ----- The arithmetic -----

  function Newer(a: int, b: int): int {
    if a < b then b else a
  }

  /** LOAD_NEW_TID_STATS on every field. */
  function Latest(earlier: Amounts, later: Amounts): Amounts {
    Amounts(Newer(later.cpu, earlier.cpu), Newer(later.read, earlier.read), Newer(later.write, earlier.write))
  }

  function Increase(earlier: int, later: int): nat {
    if later >= earlier then later - earlier else 0
  }

  function Delta(earlier: Amounts, later: Amounts): Amounts {
    Amounts(Increase(earlier.cpu, later.cpu), Increase(earlier.read, later.read), Increase(earlier.write, later.write))
  }

  /** floor of a per-second rate */
  function Rate(amount: int, dt: real): int
    requires dt > 0.0
  {
    (amount as real / dt).Floor
  }

  /** What clac_stats_difference_inner_add_to_counters charges for an increase over a time dt. */
  function Charge(d: Amounts, dt: real): Amounts {
    if dt <= 0.0 then NOTHING
    else if dt > 1.0 then Amounts(Rate(d.cpu, dt), Rate(d.read, dt), Rate(d.write, dt))
    else d
  }

  function Ceil(x: real): int {
    -(-x).Floor
  }

  /** clac_stats_difference_inner_from_counter: the sample of a tick at time now. */
  function SampleOf(c: Counter, now: real, clockTicks: nat): Stats
    requires 0 < clockTicks
  {
    var dt := now - c.tm;
    if dt > 0.0 then
      var tm := if dt < 1.0 then 1.0 else dt;
      Stats(if c.used.cpu > 0 then c.used.cpu as real / tm / clockTicks as real else 0.0,
            if c.used.read >= 0 then Ceil(c.used.read as real / tm) else 0,
            if c.used.write >= 0 then Ceil(c.used.write as real / tm) else 0)
    else ZERO_STATS
  }

  function Incremented(counters: map<Name, Counter>, username: Name, d: Amounts, tm: real): map<Name, Counter> {
    if username in counters then counters[username := counters[username].(used := counters[username].used.Plus(d))]
    else counters[username := Counter(d, tm)]
  }

  /** The counters after a thread's new readings at the clock's time were charged to its user. */
  function Charged(counters: map<Name, Counter>, item: TidData, used: Amounts, clock: real): map<Name, Counter> {
    Incremented(counters, item.username, Charge(Delta(item.used, used), clock - item.at), item.at)
  }

  // ----- The tables, step by step -----

  datatype Tables = Tables(threads: map<int, TidData>, counters: map<Name, Counter>, bad: seq<int>)

  const EMPTY := Tables(map[], map[], [])

  function Begun(t: Tables, tid: int, item: TidData): Tables {
    var used := if tid in t.threads then Latest(t.threads[tid].used, item.used) else item.used;
    t.(threads := t.threads[tid := item.(used := used)])
  }

  function Ended(t: Tables, tid: int, used: Amounts, clock: real): Tables {
    if tid in t.threads then
      t.(threads := t.threads - {tid}, counters := Charged(t.counters, t.threads[tid], used, clock))
    else t
  }

  function OfOtherConnections(threads: map<int, TidData>, fd: int): map<int, TidData> {
    map tid | tid in threads && threads[tid].fd != fd :: threads[tid]
  }

  /** chek_user_perf on one thread; now is when the walk over the table began. */
  function Visited(t: Tables, tid: int, now: real, probe: Probe, clock: real): Tables {
    if tid !in t.threads || now - t.threads[tid].at <= 1.0 then t
    else if probe.Gone? then t.(bad := t.bad + [tid])
    else
      var item := t.threads[tid];
      t.(threads := t.threads[tid := item.(used := probe.used, at := now)],
         counters := Charged(t.counters, item, probe.used, clock))
  }

  function Dropped(threads: map<int, TidData>, bad: seq<int>): map<int, TidData> {
    map tid | tid in threads && tid !in bad :: threads[tid]
  }

  function VisitedAll(t: Tables, order: seq<int>, now: real, probes: map<int, Probe>, clocks: map<int, real>): Tables
    requires forall tid :: tid in order ==> tid in probes && tid in clocks
  {
    if order == [] then t
    else
      var last := order[|order| - 1];
      Visited(VisitedAll(t, order[..|order| - 1], now, probes, clocks), last, now, probes[last], clocks[last])
  }

  function Samples(counters: map<Name, Counter>, now: real, clockTicks: nat): map<Name, Stats>
    requires 0 < clockTicks
  {
    map n | n in counters :: SampleOf(counters[n], now, clockTicks)
  }

  function Reset(counters: map<Name, Counter>, clocks: map<Name, real>): map<Name, Counter> {
    map n | n in counters :: if n in clocks then Counter(NOTHING, clocks[n]) else counters[n]
  }

  class Threads {
    var threadsList: map<int, TidData>
    var userCountersList: map<Name, Counter>
    var badTidList: seq<int>

    function State(): Tables
      reads this
    {
      Tables(threadsList, userCountersList, badTidList)
    }

    constructor ()
      ensures State() == EMPTY
    {
      threadsList, userCountersList, badTidList := map[], map[], [];
    }

    method AddNewTidData(tid: int, tbl: TidData)
      modifies this
      ensures State() == Begun(old(State()), tid, tbl)
    {
      if tid !in threadsList {
        threadsList := threadsList[tid := tbl];
      } else {
        var item := threadsList[tid];
        item := item.(username := tbl.username);
        item := item.(used := Amounts(if tbl.used.cpu < item.used.cpu then item.used.cpu else tbl.used.cpu,
                                      if tbl.used.read < item.used.read then item.used.read else tbl.used.read,
                                      if tbl.used.write < item.used.write then item.used.write else tbl.used.write));
        item := item.(pid := tbl.pid, fd := tbl.fd, at := tbl.at);
        threadsList := threadsList[tid := item];
      }
    }

    method RemoveTidData(tid: int)
      modifies `threadsList
      ensures threadsList == old(threadsList) - {tid}
    {
      threadsList := threadsList - {tid};
    }

    /** order is the hash table's. */
    method RemoveTidDataByFd(fd: int, order: seq<int>)
      requires forall tid :: tid in threadsList ==> tid in order
      modifies `threadsList
      ensures threadsList == OfOtherConnections(old(threadsList), fd)
    {
      ghost var start := threadsList;
      for i := 0 to |order|
        invariant threadsList == map tid | tid in start && (tid !in order[..i] || start[tid].fd != fd) :: start[tid]
      {
        assert order[..i + 1] == order[..i] + [order[i]];
        if order[i] in threadsList && threadsList[order[i]].fd == fd {
          RemoveTidData(order[i]);
        }
      }
      assert order[..|order|] == order;
      assert forall tid :: tid in start ==> tid in order;
      assert threadsList.Keys == OfOtherConnections(start, fd).Keys;
    }

    method IncrementCounters(username: Name, d: Amounts, tm: real)
      modifies `userCountersList
      ensures userCountersList == Incremented(old(userCountersList), username, d, tm)
    {
      if username in userCountersList {
        var item := userCountersList[username];
        userCountersList := userCountersList[username := item.(used := item.used.Plus(d))];
      } else {
        userCountersList := userCountersList[username := Counter(d, tm)];
      }
    }

    method AddToCounters(item: TidData, used: Amounts, clock: real)
      modifies `userCountersList
      ensures userCountersList == Charged(old(userCountersList), item, used, clock)
    {
      if clock > item.at {
        var cpu, read, write := 0, 0, 0;
        if used.cpu >= item.used.cpu {
          cpu := used.cpu - item.used.cpu;
        }
        if used.read >= item.used.read {
          read := used.read - item.used.read;
        }
        if used.write >= item.used.write {
          write := used.write - item.used.write;
        }
        var dt := clock - item.at;
        if dt > 1.0 {
          IncrementCounters(item.username, Amounts(Rate(cpu, dt), Rate(read, dt), Rate(write, dt)), item.at);
        } else {
          IncrementCounters(item.username, Amounts(cpu, read, write), item.at);
        }
      } else {
        IncrementCounters(item.username, NOTHING, item.at);
      }
    }

    /** The message that a thread has left a user's query. */
    method EndMessage(tid: int, used: Amounts, clock: real)
      modifies this
      ensures State() == Ended(old(State()), tid, used, clock)
    {
      if tid in threadsList {
        AddToCounters(threadsList[tid], used, clock);
        RemoveTidData(tid);
      }
    }

    method ChekUserPerf(tid: int, now: real, probe: Probe, clock: real)
      modifies this
      ensures State() == Visited(old(State()), tid, now, probe, clock)
    {
      if tid in threadsList {
        var item := threadsList[tid];
        if now - item.at > 1.0 {
          if probe.Gone? {
            badTidList := badTidList + [tid];
            return;
          }
          AddToCounters(item, probe.used, clock);
          threadsList := threadsList[tid := item.(used := probe.used, at := now)];
        }
      }
    }

    /** Threads found gone are only noted during the walk, and removed after it. */
    method ProceedTidData(order: seq<int>, now: real, probes: map<int, Probe>, clocks: map<int, real>)
      requires forall tid :: tid in order ==> tid in probes && tid in clocks
      modifies this
      ensures var t := VisitedAll(old(State()), order, now, probes, clocks);
              State() == t.(threads := Dropped(t.threads, t.bad), bad := [])
    {
      ghost var start := State();
      for i := 0 to |order|
        invariant State() == VisitedAll(start, order[..i], now, probes, clocks)
      {
        assert order[..i + 1][..i] == order[..i];
        ChekUserPerf(order[i], now, probes[order[i]], clocks[order[i]]);
      }
      assert order[..|order|] == order;
      RemoveTidBadFromList();
      badTidList := [];
    }

    method RemoveTidBadFromList()
      modifies `threadsList
      ensures threadsList == Dropped(old(threadsList), badTidList)
    {
      for i := 0 to |badTidList|
        invariant threadsList == Dropped(old(threadsList), badTidList[..i])
      {
        assert badTidList[..i + 1] == badTidList[..i] + [badTidList[i]];
        RemoveTidData(badTidList[i]);
      }
      assert badTidList[..|badTidList|] == badTidList;
    }

    method ResetCounters(username: Name, clock: real)
      modifies `userCountersList
      ensures userCountersList == Reset(old(userCountersList), map[username := clock])
    {
      if username in userCountersList {
        userCountersList := userCountersList[username := Counter(NOTHING, clock)];
      }
    }

    /** The walk of a tick over the counters: a sample from each one, and each one reset. */
    method TakeSamples(now: real, clockTicks: nat, clocks: map<Name, real>) returns (samples: map<Name, Stats>)
      requires 0 < clockTicks && clocks.Keys == userCountersList.Keys
      modifies `userCountersList
      ensures samples == Samples(old(userCountersList), now, clockTicks)
      ensures userCountersList == Reset(old(userCountersList), clocks)
    {
      samples := map[];
      ghost var start := userCountersList;
      var todo := userCountersList.Keys;
      while todo != {}
        invariant todo <= start.Keys == userCountersList.Keys
        invariant samples == map n | n in start && n !in todo :: SampleOf(start[n], now, clockTicks)
        invariant forall n :: n in start ==>
                    userCountersList[n] == if n in todo then start[n] else Counter(NOTHING, clocks[n])
      {
        var n :| n in todo;
        samples := samples[n := SampleOf(userCountersList[n], now, clockTicks)];
        ResetCounters(n, clocks[n]);
        todo := todo - {n};
      }
    }
  }
}
